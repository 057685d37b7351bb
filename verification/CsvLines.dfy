/** Tables as text with rows of any width, any of the usual row ends, and a last row that
    need not have one: what the reader makes of them. What the writer writes is among them. */
module CsvLines {
  import opened Options
  import opened CsvText

  predicate EndsRow(e: string) { e == "\n" || e == "\r\n" || e == "\r" }

  /** The fields of a row with commas between them. */
  function Fields(row: seq<Cell>): string
    requires row != []
  {
    if |row| == 1 then CellText(row[0]) else CellText(row[0]) + [DELIM] + Fields(row[1..])
  }

  ghost predicate NoneEmpty(rows: seq<seq<Cell>>) { forall i :: 0 <= i < |rows| ==> rows[i] != [] }

  /** Rows with `e` between them and `z` behind the last. */
  function TableWith(rows: seq<seq<Cell>>, e: string, z: string): string
    requires NoneEmpty(rows)
  {
    if rows == [] then ""
    else if |rows| == 1 then Fields(rows[0]) + z
    else (Fields(rows[0]) + e) + TableWith(rows[1..], e, z)
  }

  /** The last row has an end like the others, or none, and then is not empty. */
  ghost predicate Closed(rows: seq<seq<Cell>>, e: string, z: string)
    requires NoneEmpty(rows)
  {
    z == e || (z == "" && (rows != [] ==> Fields(rows[|rows| - 1]) != ""))
  }

  // ----- the writer's own -----

  lemma {:induction false} RowTextIs(row: seq<Cell>)
    requires row != []
    ensures RowText(row) == Fields(row) + "\n"
  {
    if |row| > 1 {
      RowTextIs(row[1..]);
      assert CellText(row[0]) + [DELIM] + (Fields(row[1..]) + "\n") ==
        CellText(row[0]) + [DELIM] + Fields(row[1..]) + "\n";
    }
  }

  lemma {:induction false} TableTextIs(rows: seq<seq<Cell>>)
    requires NoneEmpty(rows)
    ensures TableText(rows) == TableWith(rows, "\n", "\n")
  {
    if rows != [] {
      hide RowText, Fields;
      RowTextIs(rows[0]);
      TableTextIs(rows[1..]);
      if |rows| == 1 { assert TableText(rows[1..]) == "" && Fields(rows[0]) + "\n" + "" == Fields(rows[0]) + "\n"; }
    }
  }

  // ----- how a row begins and what is in it -----

  lemma WrittenFirst(s: string)
    ensures Written(s) == "" || (Written(s)[0] != '\n' && Written(s)[0] != '\r')
  {
    if !NeedsQuote(s) && s != "" { assert s[0] in s; }
  }

  lemma FieldsFirst(row: seq<Cell>)
    requires row != []
    ensures Fields(row) == "" || (Fields(row)[0] != '\n' && Fields(row)[0] != '\r')
  {
    var s := if row[0].None? then "" else row[0].value;
    CellWritten(row[0]);
    WrittenFirst(s);
  }

  /** Fields without quotes have no newline and no carriage return. */
  lemma {:induction false} FieldsPlain(row: seq<Cell>)
    requires row != [] && QUOTE !in Fields(row)
    ensures '\n' !in Fields(row) && '\r' !in Fields(row)
  {
    var s := if row[0].None? then "" else row[0].value;
    CellWritten(row[0]);
    QuotedOrPlain(s);
    if |row| > 1 {
      assert Fields(row) == Written(s) + ([DELIM] + Fields(row[1..]));
      assert forall c :: c in Fields(row) <==> c in Written(s) || c == DELIM || c in Fields(row[1..]);
      FieldsPlain(row[1..]);
    }
  }

  lemma QuotedOrPlain(s: string)
    ensures QUOTE in Written(s) || ('\n' !in Written(s) && '\r' !in Written(s))
  {
    if NeedsQuote(s) { assert Written(s)[0] == QUOTE; }
  }

  // ----- the cells of one row -----

  /** What the reader makes of a row when there are `n` columns, from column `c` on: cells
      it has beyond them are passed over, and those it lacks are null. */
  function Shown(row: seq<Cell>, c: nat, n: nat): seq<Cell>
    requires c <= n
  {
    seq(n - c, k requires 0 <= k < n - c => if k < |row| then Kept(row[k], c + k == n - 1) else None)
  }

  /** Nothing but nulls are read at a row end. */
  lemma {:induction false} NoMoreCells(b: string, q: nat, rowEnd: nat, c: nat, n: nat)
    requires q <= |b| && c <= n && (q < |b| ==> b[q] == '\n' || b[q] == '\r')
    ensures RowCells(b, q, rowEnd, c, n) == seq(n - c, _ => None)
    decreases n - c
  {
    if c < n && q < rowEnd {
      assert PlainEnd(b, q) == q && PastDelim(b, q) == q;
      assert ScanField(b, q) == ("", q) by { assert b[q..q] == ""; }
      NoMoreCells(b, q, rowEnd, c + 1, n);
      assert CellOf("", c == n - 1) == None;
    }
  }

  lemma ShownFirst(row: seq<Cell>, c: nat, n: nat)
    requires row != [] && c < n
    ensures Shown(row, c, n) == [Kept(row[0], c == n - 1)] + Shown(row[1..], c + 1, n)
  {
  }

  lemma ShownNone(c: nat, n: nat)
    requires c <= n
    ensures Shown([], c, n) == seq(n - c, _ => None)
  {
  }

  lemma EmptyCell(cell: Cell, last: bool)
    requires CellText(cell) == ""
    ensures Kept(cell, last) == None
  {
    if cell.Some? { WrittenLength(cell.value); }
  }

  lemma WrittenLength(s: string)
    ensures |Written(s)| >= |s|
  {
  }

  /** A written cell is scanned back as what is kept of it. */
  lemma CellRead(b: string, p: nat, cell: Cell, last: bool)
    requires TextAt(b, p, CellText(cell)) && StopsAt(b, p + |CellText(cell)|)
    ensures CellOf(ScanField(b, p).0, last) == Kept(cell, last)
    ensures ScanField(b, p).1 == PastDelim(b, p + |CellText(cell)|)
  {
    hide ScanField, Written, TextAt, PastDelim;
    CellWritten(cell);
    NothingWritten();
    FieldScan(b, p, if cell.None? then "" else cell.value);
  }

  lemma NothingWritten()
    ensures Written("") == "" && CellOf("", false) == None && CellOf("", true) == None
  {
  }

  /** The row ends in front of `rowEnd`, or with the buffer. */
  ghost predicate RowStops(b: string, q: nat, rowEnd: nat) {
    && q <= rowEnd <= |b|
    && if q == |b| then true else q < rowEnd && (b[q] == '\n' || b[q] == '\r')
  }

  lemma {:induction false} CellsRead(b: string, p: nat, row: seq<Cell>, rowEnd: nat, c: nat, n: nat)
    requires row != [] && c < n && TextAt(b, p, Fields(row)) && RowStops(b, p + |Fields(row)|, rowEnd)
    ensures RowCells(b, p, rowEnd, c, n) == Shown(row, c, n)
    decreases |row|
  {
    hide ScanField, TextAt, Shown, CellText;
    var q := p + |Fields(row)|;
    var t := CellText(row[0]);
    ShownFirst(row, c, n);
    if p >= rowEnd {
      NothingLeft(row, c, n);
    } else if |row| == 1 {
      CellRead(b, p, row[0], c == n - 1);
      ShownNone(c + 1, n);
      NoMoreCells(b, q, rowEnd, c + 1, n);
    } else {
      assert Fields(row) == t + ([DELIM] + Fields(row[1..]));
      TextSplit(b, p, t, [DELIM] + Fields(row[1..]));
      TextSplit(b, p + |t|, [DELIM], Fields(row[1..]));
      TextChar(b, p + |t|, [DELIM], 0);
      CellRead(b, p, row[0], c == n - 1);
      NoCells(b, p + |t| + 1, rowEnd, n);
      if c + 1 < n { CellsRead(b, p + |t| + 1, row[1..], rowEnd, c + 1, n); }
    }
  }

  lemma NoCells(b: string, p: nat, rowEnd: nat, n: nat)
    requires p <= |b|
    ensures RowCells(b, p, rowEnd, n, n) == []
    ensures forall row :: Shown(row, n, n) == []
  {
  }

  lemma NothingLeft(row: seq<Cell>, c: nat, n: nat)
    requires row != [] && c < n && Fields(row) == ""
    ensures Shown(row, c, n) == seq(n - c, _ => None)
  {
    assert |row| == 1;
    EmptyCell(row[0], c == n - 1);
  }

  // ----- where the rows are -----

  /** Where the rows start. */
  function Starts(rows: seq<seq<Cell>>, p: nat, e: string): (s: seq<nat>)
    requires NoneEmpty(rows)
    ensures |s| == |rows|
  {
    if rows == [] then [] else [p] + Starts(rows[1..], p + |Fields(rows[0])| + |e|, e)
  }

  /** Row `i` lies at `s`, and the next one begins behind its end. */
  ghost predicate RowAt(b: string, rows: seq<seq<Cell>>, e: string, z: string, i: nat, s: nat)
    requires i < |rows| && NoneEmpty(rows)
  {
    && TextAt(b, s, Fields(rows[i]) + if i + 1 < |rows| then e else z)
    && (i + 1 == |rows| ==> s + |Fields(rows[i])| + |z| == |b|)
  }

  lemma {:induction false} RowsAt(b: string, p: nat, rows: seq<seq<Cell>>, e: string, z: string, i: nat)
    requires NoneEmpty(rows) && TextAt(b, p, TableWith(rows, e, z)) && p + |TableWith(rows, e, z)| == |b| && i < |rows|
    ensures RowAt(b, rows, e, z, i, Starts(rows, p, e)[i])
    ensures i == 0 ==> Starts(rows, p, e)[i] == p
    ensures i + 1 < |rows| ==> Starts(rows, p, e)[i + 1] == Starts(rows, p, e)[i] + |Fields(rows[i])| + |e|
    decreases |rows|
  {
    hide Fields, TextAt;
    if |rows| > 1 {
      var t := Fields(rows[0]) + e;
      TextSplit(b, p, t, TableWith(rows[1..], e, z));
      if i > 0 {
        RowsAt(b, p + |t|, rows[1..], e, z, i - 1);
      } else {
        assert Starts(rows[1..], p + |t|, e)[0] == p + |t|;
      }
    }
  }

  /** A start as the reader finds it: where the row begins, or one further when the row is
      empty, the carriage return of its end passed over with the newline before. */
  ghost predicate Found(row: seq<Cell>, e: string, s: nat, x: nat)
    requires row != []
  {
    x == s || (x == s + 1 && e == "\r\n" && Fields(row) == "")
  }

  ghost predicate AllFound(rows: seq<seq<Cell>>, p: nat, e: string, starts: seq<nat>)
    requires NoneEmpty(rows)
  {
    |starts| == |rows| && forall i :: 0 <= i < |rows| ==> Found(rows[i], e, Starts(rows, p, e)[i], starts[i])
  }

  /** One row of a table whose rows were found. */
  lemma RowRead(b: string, p: nat, rows: seq<seq<Cell>>, e: string, z: string, starts: seq<nat>, i: nat, n: nat)
    requires NoneEmpty(rows) && TextAt(b, p, TableWith(rows, e, z)) && p + |TableWith(rows, e, z)| == |b|
    requires EndsRow(e) && Closed(rows, e, z) && AllFound(rows, p, e, starts) && i < |rows| && n > 0
    requires forall j :: 0 <= j < |starts| ==> starts[j] <= |b|
    ensures RowCells(b, starts[i], RowEnd(b, starts, i), 0, n) == Shown(rows[i], 0, n)
  {
    hide TableWith, Starts, RowCells, Shown, TextAt, Fields;
    RowsAt(b, p, rows, e, z, i);
    var s := Starts(rows, p, e)[i];
    var end := if i + 1 < |rows| then e else z;
    TextSplit(b, s, Fields(rows[i]), end);
    var q := s + |Fields(rows[i])|;
    if end != "" { TextChar(b, q, end, 0); }
    TextLength(b, q, end);
    if i + 1 < |rows| { RowsAt(b, p, rows, e, z, i + 1); }
    if starts[i] == s {
      CellsRead(b, s, rows[i], RowEnd(b, starts, i), 0, n);
    } else {
      if i + 1 < |rows| || z == e { TextChar(b, q, end, 1); }
      NoMoreCells(b, s + 1, RowEnd(b, starts, i), 0, n);
      NothingLeft(rows[i], 0, n);
    }
  }

  // ----- found by parity -----

  lemma {:induction false} SplitsFields(b: string, p: nat, row: seq<Cell>)
    requires row != [] && TextAt(b, p, Fields(row))
    ensures p + |Fields(row)| <= |b| && Splits(b, p, false) == Splits(b, p + |Fields(row)|, false)
    decreases |row|
  {
    hide Written, Splits, TextAt;
    var t := CellText(row[0]);
    CellWritten(row[0]);
    TextLength(b, p, Fields(row));
    if |row| == 1 {
      SplitsField(b, p, if row[0].None? then "" else row[0].value);
    } else {
      assert Fields(row) == t + ([DELIM] + Fields(row[1..]));
      TextSplit(b, p, t, [DELIM] + Fields(row[1..]));
      TextSplit(b, p + |t|, [DELIM], Fields(row[1..]));
      TextChar(b, p + |t|, [DELIM], 0);
      SplitsField(b, p, if row[0].None? then "" else row[0].value);
      SplitsPastDelim(b, p + |t|);
      SplitsFields(b, p + |t| + 1, row[1..]);
    }
  }

  lemma SplitsPastDelim(b: string, p: nat)
    requires p < |b| && b[p] == DELIM
    ensures Splits(b, p, false) == Splits(b, p + 1, false)
  {
  }

  /** A row end outside quotes: the next row starts right behind it. */
  lemma SplitsEnd(b: string, q: nat, e: string)
    requires EndsRow(e) && TextAt(b, q, e) && (e == "\r" && q + 1 < |b| ==> b[q + 1] != '\n')
    ensures q + |e| <= |b|
    ensures Splits(b, q, false) == (if q + |e| < |b| then [q + |e|] else []) + Splits(b, q + |e|, false)
  {
    TextChar(b, q, e, 0);
    if e == "\r\n" { TextChar(b, q, e, 1); }
  }

  /** Behind a row end of a table comes no newline. */
  lemma TableFirst(rows: seq<seq<Cell>>, e: string, z: string)
    requires NoneEmpty(rows) && rows != [] && EndsRow(e) && Closed(rows, e, z)
    ensures TableWith(rows, e, z) != "" && (e == "\r" ==> TableWith(rows, e, z)[0] != '\n')
  {
    hide Fields;
    FieldsFirst(rows[0]);
  }

  lemma ClosedRest(rows: seq<seq<Cell>>, e: string, z: string)
    requires NoneEmpty(rows) && |rows| > 1 && Closed(rows, e, z)
    ensures Closed(rows[1..], e, z)
  {
  }

  /** The row ends in front of another, or with the buffer. */
  lemma SplitsLine(b: string, p: nat, row: seq<Cell>, end: string)
    requires row != [] && TextAt(b, p, Fields(row) + end) && (EndsRow(end) || (end == "" && p + |Fields(row)| == |b|))
    requires var q := p + |Fields(row)| + |end|; end == "\r" && q < |b| ==> b[q] != '\n'
    ensures var q := p + |Fields(row)| + |end|;
            && q <= |b| && Splits(b, p, false) == (if q < |b| then [q] else []) + Splits(b, q, false)
  {
    hide Fields, Splits, TextAt;
    TextSplit(b, p, Fields(row), end);
    SplitsFields(b, p, row);
    if end == "" { EmptySplits(b); } else { SplitsEnd(b, p + |Fields(row)|, end); }
  }

  /** The first row of a table, and where the others start. */
  lemma StartsFirst(rows: seq<seq<Cell>>, p: nat, e: string, z: string)
    requires NoneEmpty(rows) && rows != []
    ensures |rows| == 1 ==> Starts(rows, p, e) == [p] && TableWith(rows, e, z) == Fields(rows[0]) + z
    ensures |rows| > 1 ==>
              && Starts(rows, p, e) == [p] + Starts(rows[1..], p + |Fields(rows[0]) + e|, e)
              && TableWith(rows, e, z) == (Fields(rows[0]) + e) + TableWith(rows[1..], e, z)
  {
    hide Fields;
  }

  lemma LastEnd(rows: seq<seq<Cell>>, e: string, z: string)
    requires NoneEmpty(rows) && |rows| == 1 && EndsRow(e) && Closed(rows, e, z)
    ensures EndsRow(z) || z == ""
  {
    hide Fields;
  }

  lemma {:induction false} SplitsTable(b: string, p: nat, rows: seq<seq<Cell>>, e: string, z: string)
    requires NoneEmpty(rows) && rows != [] && EndsRow(e) && Closed(rows, e, z)
    requires TextAt(b, p, TableWith(rows, e, z)) && p + |TableWith(rows, e, z)| == |b|
    ensures [p] + Splits(b, p, false) == Starts(rows, p, e)
    decreases |rows|
  {
    hide Fields, Splits, TextAt, TableWith, Starts, Closed, EndsRow;
    StartsFirst(rows, p, e, z);
    if |rows| == 1 {
      LastEnd(rows, e, z);
      SplitsLine(b, p, rows[0], z);
      EmptySplits(b);
    } else {
      var t, rest := Fields(rows[0]) + e, TableWith(rows[1..], e, z);
      ClosedRest(rows, e, z);
      TableFirst(rows[1..], e, z);
      TextSplit(b, p, t, rest);
      TextChar(b, p + |t|, rest, 0);
      SplitsLine(b, p, rows[0], e);
      SplitsTable(b, p + |t|, rows[1..], e, z);
    }
  }

  // ----- found by newlines alone -----

  lemma {:induction false} NewlineAt(b: string, x: nat, q: nat)
    requires x <= q <= |b| && (forall k :: x <= k < q ==> b[k] != '\n') && (q < |b| ==> b[q] == '\n')
    ensures FindNewline(b, x) == q
    decreases q - x
  {
    if x < q { NewlineAt(b, x + 1, q); }
  }

  /** The newline of a row, if it has one. */
  lemma RowNewline(b: string, s: nat, row: seq<Cell>, end: string, x: nat)
    requires row != [] && TextAt(b, s, Fields(row) + end) && QUOTE !in Fields(row)
    requires Found(row, if end == "" then "\n" else end, s, x)
    requires end == "\n" || end == "\r\n" || (end == "" && s + |Fields(row)| == |b|)
    ensures FindNewline(b, x) == if end == "" then |b| else s + |Fields(row)| + |end| - 1
    ensures end != "" ==> s + |Fields(row)| + |end| <= |b|
  {
    hide Fields, TextAt;
    FieldsPlain(row);
    var t := Fields(row) + end;
    var q := s + |Fields(row)| + if end == "" then 0 else |end| - 1;
    TextLength(b, s, t);
    forall k | x <= k < q
      ensures b[k] != '\n'
    {
      TextChar(b, s, t, k - s);
      if k - s < |Fields(row)| { assert Fields(row)[k - s] in Fields(row); }
    }
    if end != "" { TextChar(b, s, t, |t| - 1); }
    NewlineAt(b, x, q);
  }

  /** Where the rows are found when only newlines are looked for, from the first on, which
      is found at `x`. */
  function PlainStarts(rows: seq<seq<Cell>>, p: nat, e: string, x: nat): (r: seq<nat>)
    requires NoneEmpty(rows) && rows != []
    ensures |r| == |rows| && r[0] == x
  {
    if |rows| == 1 then [x]
    else
      var q := p + |Fields(rows[0])| + |e|;
      [x] + PlainStarts(rows[1..], q, e, if e == "\r\n" && Fields(rows[1]) == "" then q + 1 else q)
  }

  lemma {:induction false} PlainTable(b: string, p: nat, rows: seq<seq<Cell>>, e: string, z: string, x: nat)
    requires NoneEmpty(rows) && rows != [] && (e == "\n" || e == "\r\n") && Closed(rows, e, z)
    requires TextAt(b, p, TableWith(rows, e, z)) && p + |TableWith(rows, e, z)| == |b|
    requires QUOTE !in TableWith(rows, e, z) && Found(rows[0], e, p, x)
    ensures x <= |b| && [x] + PlainSplits(b, x) == PlainStarts(rows, p, e, x)
    decreases |rows|
  {
    hide Fields, PlainSplits, TextAt;
    var t := Fields(rows[0]);
    if |rows| == 1 {
      RowNewline(b, p, rows[0], z, x);
      TextLength(b, p, t + z);
      LastRow(b, x);
    } else {
      var rest := TableWith(rows[1..], e, z);
      ClosedRest(rows, e, z);
      TableFirst(rows[1..], e, z);
      TextSplit(b, p, t + e, rest);
      RowNewline(b, p, rows[0], e, x);
      var q := p + |t| + |e|;
      TextLength(b, q, rest);
      TextChar(b, q, rest, 0);
      FieldsFirst(rows[1]);
      NextFirst(rows, e, z);
      var y := if e == "\r\n" && Fields(rows[1]) == "" then q + 1 else q;
      PlainNext(b, x, q, y);
      PlainTable(b, q, rows[1..], e, z, y);
    }
  }

  lemma InTail(b: string, p: nat)
    requires p <= |b|
    ensures forall k :: p <= k < |b| ==> b[k] in b[p..]
  {
    forall k | p <= k < |b|
      ensures b[k] in b[p..]
    {
      assert b[k] == b[p..][k - p];
    }
  }

  lemma LastRow(b: string, x: nat)
    requires x <= |b| && (FindNewline(b, x) == |b| || FindNewline(b, x) == |b| - 1)
    ensures PlainSplits(b, x) == []
  {
  }

  /** The row behind a row end begins with a carriage return only if it is empty. */
  lemma NextFirst(rows: seq<seq<Cell>>, e: string, z: string)
    requires NoneEmpty(rows) && |rows| > 1 && (e == "\n" || e == "\r\n") && Closed(rows, e, z)
    ensures var rest := TableWith(rows[1..], e, z);
            rest != "" && (rest[0] == '\r' <==> e == "\r\n" && Fields(rows[1]) == "")
    ensures e == "\r\n" && Fields(rows[1]) == "" ==> |TableWith(rows[1..], e, z)| >= 2
  {
    hide Fields;
    ClosedRest(rows, e, z);
    FieldsFirst(rows[1]);
  }

  lemma PlainNext(b: string, x: nat, q: nat, y: nat)
    requires x <= |b| && q < |b| && FindNewline(b, x) == q - 1
    requires y == (if b[q] == '\r' then q + 1 else q) < |b|
    ensures PlainSplits(b, x) == [y] + PlainSplits(b, y)
  {
  }

  lemma {:induction false} PlainFound(rows: seq<seq<Cell>>, p: nat, e: string, x: nat, i: nat)
    requires NoneEmpty(rows) && i < |rows| && Found(rows[0], e, p, x)
    ensures Found(rows[i], e, Starts(rows, p, e)[i], PlainStarts(rows, p, e, x)[i])
    decreases |rows|
  {
    hide Fields;
    if i > 0 {
      var q := p + |Fields(rows[0])| + |e|;
      PlainFound(rows[1..], q, e, if e == "\r\n" && Fields(rows[1]) == "" then q + 1 else q, i - 1);
    }
  }

  lemma AllPlainFound(rows: seq<seq<Cell>>, p: nat, e: string)
    requires NoneEmpty(rows) && rows != []
    ensures AllFound(rows, p, e, PlainStarts(rows, p, e, p))
    ensures e == "\n" ==> PlainStarts(rows, p, e, p) == Starts(rows, p, e)
  {
    hide Fields, Starts, PlainStarts;
    forall i | 0 <= i < |rows|
      ensures Found(rows[i], e, Starts(rows, p, e)[i], PlainStarts(rows, p, e, p)[i])
    {
      PlainFound(rows, p, e, p, i);
    }
  }

  // ----- found at all -----

  /** The rows of a table are found, each where it starts, or one further if it is empty;
      but rows ended by single carriage returns only if there are quotes: without them the
      whole table is taken for one row. */
  lemma OffsetsOfTable(b: string, p: nat, rows: seq<seq<Cell>>, e: string, z: string)
    requires NoneEmpty(rows) && EndsRow(e) && Closed(rows, e, z)
    requires TextAt(b, p, TableWith(rows, e, z)) && p + |TableWith(rows, e, z)| == |b|
    ensures e != "\r" || |rows| <= 1 || QUOTE in TableWith(rows, e, z) ==> AllFound(rows, p, e, RowOffsets(b, p))
    ensures e == "\n" || QUOTE in TableWith(rows, e, z) ==> RowOffsets(b, p) == Starts(rows, p, e)
    ensures e == "\r" && QUOTE !in TableWith(rows, e, z) && rows != [] ==> RowOffsets(b, p) == [p]
  {
    hide Splits, PlainSplits, Fields, TextAt, TableWith, Starts, PlainStarts;
    TextIs(b, p, TableWith(rows, e, z));
    assert b[p..] == TableWith(rows, e, z);
    FewRows(rows, p, e, z);
    if rows != [] {
      TableFirst(rows, e, z);
      if QUOTE in TableWith(rows, e, z) {
        SplitsTable(b, p, rows, e, z);
      } else if e == "\r" {
        NoNewline(rows, z);
        NewlineAt(b, p, |b|) by { InTail(b, p); }
        LastRow(b, p);
      } else {
        PlainTable(b, p, rows, e, z, p);
        AllPlainFound(rows, p, e);
      }
    }
  }

  lemma FewRows(rows: seq<seq<Cell>>, p: nat, e: string, z: string)
    requires NoneEmpty(rows)
    ensures rows == [] ==> TableWith(rows, e, z) == "" && Starts(rows, p, e) == []
    ensures |rows| == 1 ==> Starts(rows, p, e) == [p]
  {
  }

  lemma {:induction false} NoNewline(rows: seq<seq<Cell>>, z: string)
    requires NoneEmpty(rows) && QUOTE !in TableWith(rows, "\r", z) && (z == "" || z == "\r")
    ensures '\n' !in TableWith(rows, "\r", z)
  {
    hide Fields;
    if rows != [] {
      var t := Fields(rows[0]);
      assert forall c :: c in t ==> c in TableWith(rows, "\r", z);
      FieldsPlain(rows[0]);
      if |rows| > 1 {
        assert forall c :: c in TableWith(rows[1..], "\r", z) ==> c in TableWith(rows, "\r", z);
        NoNewline(rows[1..], z);
      }
    }
  }

  // ----- the header line -----

  lemma HeaderFirst(names: seq<string>)
    requires names != []
    ensures |HeaderRow(names)| == |names| && HeaderRow(names)[0] == Some(names[0])
    ensures HeaderRow(names)[1..] == HeaderRow(names[1..])
  {
  }

  lemma DelimsAt(b: string, p: nat)
    requires p <= |b|
    ensures p == |b| || b[p] == '\n' || b[p] == '\r' ==> Delims(b, p, false) == 0
    ensures p < |b| && b[p] == DELIM ==> Delims(b, p, false) == 1 + Delims(b, p + 1, false)
  {
  }

  lemma OneField(b: string, p: nat, n: nat)
    requires p <= |b| && n > 0
    ensures var f := ScanField(b, p);
            var r := HeaderFields(b, f.1, n - 1);
            HeaderFields(b, p, n) == ([f.0] + r.0, r.1)
  {
  }

  lemma NoFields(b: string, p: nat)
    requires p <= |b|
    ensures HeaderFields(b, p, 0) == ([], p)
  {
  }

  lemma DelimPassed(b: string, p: nat)
    requires p <= |b|
    ensures PastDelim(b, p) == if p < |b| && b[p] == DELIM then p + 1 else p
  {
  }

  /** The header line is counted and read back. */
  lemma {:induction false} HeaderRead(b: string, p: nat, names: seq<string>)
    requires names != [] && TextAt(b, p, Fields(HeaderRow(names)))
    requires var q := p + |Fields(HeaderRow(names))|; q == |b| || b[q] == '\n' || b[q] == '\r'
    ensures Delims(b, p, false) == |names| - 1
    ensures HeaderFields(b, p, |names|) == (names, p + |Fields(HeaderRow(names))|)
    decreases |names|
  {
    hide Written, ScanField, TextAt, Delims, HeaderFields, HeaderRow, PastDelim;
    var row := HeaderRow(names);
    var t := Written(names[0]);
    HeaderFirst(names);
    TextLength(b, p, Fields(row));
    DelimsAt(b, p + |t|);
    DelimPassed(b, p + |t|);
    OneField(b, p, |names|);
    if |names| == 1 {
      DelimsField(b, p, names[0]);
      FieldScan(b, p, names[0]);
      NoFields(b, p + |t|);
      assert [names[0]] + [] == names;
    } else {
      assert Fields(row) == t + ([DELIM] + Fields(HeaderRow(names[1..])));
      TextSplit(b, p, t, [DELIM] + Fields(HeaderRow(names[1..])));
      TextSplit(b, p + |t|, [DELIM], Fields(HeaderRow(names[1..])));
      TextChar(b, p + |t|, [DELIM], 0);
      DelimsField(b, p, names[0]);
      FieldScan(b, p, names[0]);
      HeaderRead(b, p + |t| + 1, names[1..]);
      assert [names[0]] + names[1..] == names;
    }
  }

  // ----- a whole file -----

  /** The header line, then the rows. */
  function FileWith(names: seq<string>, rows: seq<seq<Cell>>, e: string, z: string): string
    requires names != [] && NoneEmpty(rows)
  {
    (Fields(HeaderRow(names)) + if rows == [] then z else e) + TableWith(rows, e, z)
  }

  function ShownRows(rows: seq<seq<Cell>>, n: nat): seq<seq<Cell>> {
    seq(|rows|, i requires 0 <= i < |rows| => Shown(rows[i], 0, n))
  }

  lemma HeaderLine(names: seq<string>, rows: seq<seq<Cell>>, e: string, z: string)
    requires names != [] && NoneEmpty(rows) && EndsRow(e) && Closed(rows, e, z)
    ensures var b := FileWith(names, rows, e, z);
            var p := |b| - |TableWith(rows, e, z)|;
            && p >= 0 && Delims(b, 0, false) == |names| - 1 && HeaderFields(b, 0, |names|).0 == names
            && PastLine(b, HeaderFields(b, 0, |names|).1) == p && TextAt(b, p, TableWith(rows, e, z))
  {
    hide Fields, Delims, HeaderFields, TextAt;
    var b := FileWith(names, rows, e, z);
    var h := Fields(HeaderRow(names));
    var end := if rows == [] then z else e;
    var t := TableWith(rows, e, z);
    assert TextAt(b, 0, (h + end) + t) by { assert b[0..|b|] == b; WholeText(b); }
    TextSplit(b, 0, h + end, t);
    TextSplit(b, 0, h, end);
    if end != "" { TextChar(b, |h|, end, 0); }
    if end == "\r\n" { TextChar(b, |h|, end, 1); }
    if rows != [] { TableFirst(rows, e, z); TextChar(b, |h + end|, t, 0); }
    HeaderRead(b, 0, names);
  }

  lemma WholeText(b: string)
    ensures TextAt(b, 0, b)
  {
  }

  /** A file with any of the usual row ends, its rows of any width, its last one with an
      end or without: names and cells are those of the text, up to what an empty string and
      a last carriage return lose. This fails exactly for files of several rows that are
      ended by single carriage returns and have no quotes. */
  lemma AnyRows(names: seq<string>, rows: seq<seq<Cell>>, e: string, z: string)
    requires names != [] && NoneEmpty(rows) && EndsRow(e) && Closed(rows, e, z)
    ensures ReadFile(FileWith(names, rows, e, z)) == (names, ShownRows(rows, |names|)) <==>
              e != "\r" || |rows| <= 1 || QUOTE in TableWith(rows, e, z)
  {
    hide Fields, RowCells, Delims, HeaderFields, RowOffsets, TableWith, TextAt, PastLine, Shown, FileWith;
    var b := FileWith(names, rows, e, z);
    HeaderLine(names, rows, e, z);
    var p := |b| - |TableWith(rows, e, z)|;
    OffsetsOfTable(b, p, rows, e, z);
    OffsetsInside(b, p);
    var starts := RowOffsets(b, p);
    if e != "\r" || |rows| <= 1 || QUOTE in TableWith(rows, e, z) {
      FileRows(b, p, rows, e, z, starts, |names|);
    } else {
      assert |RowsRead(b, starts, |names|)| == 1;
    }
  }

  lemma FileRows(b: string, p: nat, rows: seq<seq<Cell>>, e: string, z: string, starts: seq<nat>, n: nat)
    requires NoneEmpty(rows) && TextAt(b, p, TableWith(rows, e, z)) && p + |TableWith(rows, e, z)| == |b|
    requires EndsRow(e) && Closed(rows, e, z) && AllFound(rows, p, e, starts) && n > 0
    requires forall j :: 0 <= j < |starts| ==> starts[j] <= |b|
    ensures RowsRead(b, starts, n) == ShownRows(rows, n)
  {
    hide Fields, RowCells, TableWith, TextAt, Shown, AllFound, RowEnd;
    assert |starts| == |rows| by { AllThere(rows, p, e, starts); }
    forall i | 0 <= i < |rows|
      ensures RowCells(b, starts[i], RowEnd(b, starts, i), 0, n) == Shown(rows[i], 0, n)
    {
      RowRead(b, p, rows, e, z, starts, i, n);
    }
  }

  lemma AllThere(rows: seq<seq<Cell>>, p: nat, e: string, starts: seq<nat>)
    requires NoneEmpty(rows) && AllFound(rows, p, e, starts)
    ensures |starts| == |rows|
  {
  }

  // ----- written and read -----

  lemma FileTextIs(names: seq<string>, rows: seq<seq<Cell>>)
    requires names != [] && NoneEmpty(rows)
    ensures FileText(names, rows) == FileWith(names, rows, "\n", "\n")
  {
    hide Fields, RowText;
    RowTextIs(HeaderRow(names));
    TableTextIs(rows);
  }

  /** A row as wide as the table is kept as it is, and so is the table. */
  lemma ShownKept(rows: seq<seq<Cell>>, n: nat)
    requires forall i :: 0 <= i < |rows| ==> |rows[i]| == n
    ensures ShownRows(rows, n) == KeptRows(rows)
  {
    forall i | 0 <= i < |rows|
      ensures Shown(rows[i], 0, n) == KeptRow(rows[i])
    {
    }
  }

  /** Any table of string columns, written and read: the names and, up to what an empty
      string and a last carriage return lose, every cell of every row. */
  lemma FileRoundTrip(names: seq<string>, rows: seq<seq<Cell>>)
    requires names != [] && forall i :: 0 <= i < |rows| ==> |rows[i]| == |names|
    ensures ReadFile(FileText(names, rows)) == (names, KeptRows(rows))
    ensures Delims(FileText(names, rows), 0, false) + 1 == |names|
  {
    hide ReadFile, FileText, FileWith, ShownRows, KeptRows, Delims, TableWith, Fields;
    FileTextIs(names, rows);
    HeaderLine(names, rows, "\n", "\n");
    AnyRows(names, rows, "\n", "\n");
    ShownKept(rows, |names|);
  }

  /** Which tables come back unchanged: those without empty strings, and without a last
      string ending in a carriage return. */
  ghost predicate Faithful(rows: seq<seq<Cell>>) {
    forall i, c :: 0 <= i < |rows| && 0 <= c < |rows[i]| && rows[i][c].Some? ==>
      var s := rows[i][c].value;
      s != "" && (c == |rows[i]| - 1 ==> s[|s| - 1] != '\r')
  }

  lemma UnchangedExactly(names: seq<string>, rows: seq<seq<Cell>>)
    requires names != [] && forall i :: 0 <= i < |rows| ==> |rows[i]| == |names|
    ensures ReadFile(FileText(names, rows)) == (names, rows) <==> Faithful(rows)
  {
    hide ReadFile, FileText;
    FileRoundTrip(names, rows);
    if KeptRows(rows) == rows {
      forall i, c | 0 <= i < |rows| && 0 <= c < |rows[i]| && rows[i][c].Some?
        ensures var s := rows[i][c].value; s != "" && (c == |rows[i]| - 1 ==> s[|s| - 1] != '\r')
      {
        assert KeptRows(rows)[i] == KeptRow(rows[i]) == rows[i];
        assert KeptRow(rows[i])[c] == Kept(rows[i][c], c == |rows[i]| - 1) == rows[i][c];
      }
    }
    if Faithful(rows) {
      forall i | 0 <= i < |rows|
        ensures KeptRow(rows[i]) == rows[i]
      {
        forall c | 0 <= c < |rows[i]|
          ensures Kept(rows[i][c], c == |rows[i]| - 1) == rows[i][c]
        {
        }
      }
      assert KeptRows(rows) == rows;
    }
  }

  // ----- what the text looks like -----

  /** A string stands as it is unless it holds a comma, a quote or a line end; then it
      stands between quotes. */
  lemma WrittenExactly(s: string)
    ensures Written(s) == s <==> forall c :: c in s ==> c !in {',', '"', '\n', '\r'}
    ensures Written(s) != s ==> |Written(s)| >= 2 && Written(s) == ['"'] + Escape(s) + ['"']
  {
    assert |Escape(s)| >= |s|;
  }

  /** A small file, whole. */
  lemma SmallFile()
    ensures FileText(["x", "a,b"], [[Some("1"), Some("5\"")], [None, Some("")]]) ==
            "x,\"a,b\"\n" + "1,\"5\"\"\"\n" + ",\n"
  {
    SmallRows();
    hide RowText;
    var row0, row1: seq<Cell> := [Some("1"), Some("5\"")], [None, Some("")];
    assert HeaderRow(["x", "a,b"]) == [Some("x"), Some("a,b")];
    assert [row0, row1][1..] == [row1] && [row1][1..] == [];
    assert TableText([row0, row1]) == RowText(row0) + (RowText(row1) + TableText([]));
  }

  lemma SmallRows()
    ensures RowText([Some("x"), Some("a,b")]) == "x,\"a,b\"\n"
    ensures RowText([Some("1"), Some("5\"")]) == "1,\"5\"\"\"\n" && RowText([None, Some("")]) == ",\n"
  {
    SmallFields();
    hide Written, RowText;
    PairText(Some("x"), Some("a,b"));
    PairText(Some("1"), Some("5\""));
    PairText(None, Some(""));
  }

  lemma PairText(a: Cell, b: Cell)
    ensures RowText([a, b]) == CellText(a) + "," + (CellText(b) + "\n")
  {
    assert [a, b][1..] == [b];
  }

  lemma SmallFields()
    ensures Written("x") == "x" && Written("a,b") == "\"a,b\"" && Written("1") == "1" && Written("5\"") == "\"5\"\"\""
    ensures Written("") == ""
  {
    SmallEscapes();
    hide Escape;
    assert "a,b"[1] == ',' && "5\""[1] == '"';
  }

  lemma SmallEscapes()
    ensures Escape("a,b") == "a,b" && Escape("5\"") == "5\"\""
  {
    assert "a,b"[1..] == ",b" && ",b"[1..] == "b" && "5\""[1..] == "\"";
    assert Escape("b") == "b" && Escape("\"") == "\"\"";
  }

  /** What comes back for a cell that does not come back itself. */
  lemma CellKept(s: string, last: bool)
    ensures Kept(None, last) == None && Kept(Some(""), last) == None
    ensures s != "" && (last ==> s[|s| - 1] != '\r') ==> Kept(Some(s), last) == Some(s)
    ensures Kept(Some(s + "\r"), true) == if s == "" then None else Some(s)
  {
    assert (s + "\r")[..|s|] == s;
  }
}
