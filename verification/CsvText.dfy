/** String tables as CSV text (quoting as in section 2 of RFC 4180), and how the reader
    splits the text into rows and the rows into fields. */
module CsvText {
  import opened Options

  type Cell = Option<string>

  const QUOTE: char := '"'
  const DELIM: char := ','

  // ----- writing -----

  predicate NeedsQuote(s: string) { DELIM in s || QUOTE in s || '\n' in s || '\r' in s }

  /** Every quote doubled. */
  function Escape(s: string): (r: string)
    ensures |r| >= |s|
  {
    if s == "" then "" else (if s[0] == QUOTE then [QUOTE, QUOTE] else [s[0]]) + Escape(s[1..])
  }

  function Written(s: string): string { if NeedsQuote(s) then [QUOTE] + Escape(s) + [QUOTE] else s }

  function CellText(c: Cell): string { if c.None? then "" else Written(c.value) }

  function RowText(row: seq<Cell>): string
    requires row != []
  {
    if |row| == 1 then CellText(row[0]) + ['\n'] else CellText(row[0]) + [DELIM] + RowText(row[1..])
  }

  function TableText(rows: seq<seq<Cell>>): string
    requires forall i :: 0 <= i < |rows| ==> rows[i] != []
  {
    if rows == [] then "" else RowText(rows[0]) + TableText(rows[1..])
  }

  // ----- scanning one field -----

  /** The closing quote of a field, from behind its opening quote on. */
  function QuoteEnd(b: string, p: nat): (q: nat)
    requires p <= |b|
    ensures p <= q <= |b| && (q < |b| ==> b[q] == QUOTE)
    decreases |b| - p
  {
    if p == |b| then p
    else if b[p] == QUOTE then (if p + 1 < |b| && b[p + 1] == QUOTE then QuoteEnd(b, p + 2) else p)
    else QuoteEnd(b, p + 1)
  }

  function Unescape(s: string): string
    decreases |s|
  {
    if s == "" then ""
    else if s[0] == QUOTE && |s| > 1 && s[1] == QUOTE then [QUOTE] + Unescape(s[2..])
    else [s[0]] + Unescape(s[1..])
  }

  predicate Stops(c: char) { c == DELIM || c == '\n' || c == '\r' }

  function PlainEnd(b: string, p: nat): (q: nat)
    requires p <= |b|
    ensures p <= q <= |b|
    decreases |b| - p
  {
    if p == |b| || Stops(b[p]) then p else PlainEnd(b, p + 1)
  }

  function PastDelim(b: string, p: nat): (q: nat)
    requires p <= |b|
    ensures p <= q <= |b|
  {
    if p < |b| && b[p] == DELIM then p + 1 else p
  }

  /** scan_field: the field at `p` and where the next one starts. */
  function ScanField(b: string, p: nat): (r: (string, nat))
    requires p <= |b|
    ensures p <= r.1 <= |b|
  {
    if p == |b| then ("", p)
    else if b[p] != QUOTE then
      var e := PlainEnd(b, p);
      (b[p..e], PastDelim(b, e))
    else
      var q := QuoteEnd(b, p + 1);
      (Unescape(b[p + 1..q]), PastDelim(b, if q < |b| then q + 1 else q))
  }

  // ----- splitting into rows -----

  /** Row starts found from `p` on by quote parity. */
  function Splits(b: string, p: nat, inQuote: bool): seq<nat>
    requires p <= |b|
    decreases |b| - p
  {
    if p == |b| then []
    else if b[p] == QUOTE then Splits(b, p + 1, !inQuote)
    else if !inQuote && (b[p] == '\n' || b[p] == '\r') then
      var q := if b[p] == '\r' && p + 1 < |b| && b[p + 1] == '\n' then p + 2 else p + 1;
      (if q < |b| then [q] else []) + Splits(b, q, inQuote)
    else Splits(b, p + 1, inQuote)
  }

  function FindNewline(b: string, p: nat): (q: nat)
    requires p <= |b|
    ensures p <= q <= |b|
    decreases |b| - p
  {
    if p == |b| || b[p] == '\n' then p else FindNewline(b, p + 1)
  }

  /** Row starts found from `p` on when there are no quotes. */
  function PlainSplits(b: string, p: nat): seq<nat>
    requires p <= |b|
    decreases |b| - p
  {
    var nl := FindNewline(b, p);
    if nl == |b| then []
    else
      var q := if nl + 1 < |b| && b[nl + 1] == '\r' then nl + 2 else nl + 1;
      if q >= |b| then [] else [q] + PlainSplits(b, q)
  }

  predicate HasQuote(b: string, p: nat)
    requires p <= |b|
  {
    QUOTE in b[p..]
  }

  /** build_row_offsets, from where the data begins. */
  function RowOffsets(b: string, p: nat): seq<nat>
    requires p <= |b|
  {
    if p == |b| then [] else [p] + if HasQuote(b, p) then Splits(b, p, false) else PlainSplits(b, p)
  }

  // ----- the fields of a row -----

  /** A last field loses a carriage return at its end; an empty field is null. */
  function CellOf(field: string, last: bool): Cell {
    var f := if last && field != "" && field[|field| - 1] == '\r' then field[..|field| - 1] else field;
    if f == "" then None else Some(f)
  }

  /** The cells of a row from field `c` on, `n` in all, from position `p`. */
  function RowCells(b: string, p: nat, rowEnd: nat, c: nat, n: nat): (r: seq<Cell>)
    requires p <= |b| && c <= n
    ensures |r| == n - c
    decreases n - c
  {
    if c == n then []
    else if p >= rowEnd then seq(n - c, _ => None)
    else
      var f := ScanField(b, p);
      [CellOf(f.0, c == n - 1)] + RowCells(b, f.1, rowEnd, c + 1, n)
  }

  // ----- what is written is scanned back -----

  ghost predicate TextAt(b: string, p: nat, t: string) { p + |t| <= |b| && b[p..p + |t|] == t }

  lemma TextLength(b: string, p: nat, t: string)
    requires TextAt(b, p, t)
    ensures p + |t| <= |b|
  {
  }

  lemma TextChar(b: string, p: nat, t: string, i: nat)
    requires TextAt(b, p, t) && i < |t|
    ensures b[p + i] == t[i]
  {
    assert b[p..p + |t|][i] == b[p + i];
  }

  lemma TextSplit(b: string, p: nat, s: string, t: string)
    requires TextAt(b, p, s + t)
    ensures TextAt(b, p, s) && TextAt(b, p + |s|, t)
  {
    assert b[p..p + |s|] == (s + t)[..|s|] == s;
    assert b[p + |s|..p + |s| + |t|] == (s + t)[|s|..] == t;
  }

  lemma TailPlain(s: string)
    requires !NeedsQuote(s) && s != ""
    ensures s[0] != QUOTE && !Stops(s[0]) && !NeedsQuote(s[1..]) && s == [s[0]] + s[1..]
  {
    assert s[0] in s && forall c :: c in s[1..] ==> c in s;
  }

  /** The text ends at the end of the buffer, or where a field stops. */
  ghost predicate StopsAt(b: string, q: nat) { q == |b| || (q < |b| && Stops(b[q])) }

  lemma {:induction false} PlainScan(b: string, p: nat, s: string)
    requires TextAt(b, p, s) && !NeedsQuote(s) && StopsAt(b, p + |s|)
    ensures PlainEnd(b, p) == p + |s|
    decreases |s|
  {
    if s != "" {
      hide NeedsQuote;
      TextChar(b, p, s, 0);
      TailPlain(s);
      TextSplit(b, p, [s[0]], s[1..]);
      PlainScan(b, p + 1, s[1..]);
    }
  }

  lemma {:induction false} UnescapeEscape(s: string)
    ensures Unescape(Escape(s)) == s
  {
    if s != "" {
      UnescapeEscape(s[1..]);
      var e := Escape(s[1..]);
      if s[0] == QUOTE {
        assert Escape(s)[2..] == e;
      } else {
        assert Escape(s)[1..] == e;
      }
      assert s == [s[0]] + s[1..];
    }
  }

  lemma {:induction false} QuotedScan(b: string, p: nat, s: string)
    requires TextAt(b, p, Escape(s) + [QUOTE]) && (p + |Escape(s)| + 1 < |b| ==> b[p + |Escape(s)| + 1] != QUOTE)
    ensures QuoteEnd(b, p) == p + |Escape(s)|
    decreases |s|
  {
    hide TextAt;
    TextSplit(b, p, Escape(s), [QUOTE]);
    TextChar(b, p + |Escape(s)|, [QUOTE], 0);
    TextLength(b, p, Escape(s) + [QUOTE]);
    if s != "" {
      var head := if s[0] == QUOTE then [QUOTE, QUOTE] else [s[0]];
      assert Escape(s) + [QUOTE] == head + (Escape(s[1..]) + [QUOTE]);
      TextSplit(b, p, head, Escape(s[1..]) + [QUOTE]);
      TextChar(b, p, head, 0);
      if s[0] == QUOTE { TextChar(b, p, head, 1); }
      QuotedScan(b, p + |head|, s[1..]);
    }
  }

  lemma TextIs(b: string, p: nat, t: string)
    requires TextAt(b, p, t)
    ensures p + |t| <= |b| && b[p..p + |t|] == t
  {
  }

  /** A quoted field, whatever follows its closing quote: only a delimiter is passed over,
      anything else begins the next field. */
  lemma QuotedField(b: string, p: nat, s: string)
    requires TextAt(b, p, [QUOTE] + (Escape(s) + [QUOTE]))
    requires var q := p + |Escape(s)| + 2; q < |b| ==> b[q] != QUOTE
    ensures ScanField(b, p) == (s, PastDelim(b, p + |Escape(s)| + 2))
  {
    hide QuoteEnd, PlainEnd, Unescape, Escape, TextAt;
    TextSplit(b, p, [QUOTE], Escape(s) + [QUOTE]);
    TextSplit(b, p + 1, Escape(s), [QUOTE]);
    var q := p + 1 + |Escape(s)|;
    TextChar(b, p, [QUOTE], 0);
    TextChar(b, q, [QUOTE], 0);
    TextLength(b, q, [QUOTE]);
    TextIs(b, p + 1, Escape(s));
    QuotedScan(b, p + 1, s);
    UnescapeEscape(s);
  }

  /** A quoted field that is not closed goes on to the end of the file, */
  lemma {:induction false} UnclosedEnd(b: string, p: nat, s: string)
    requires TextAt(b, p, Escape(s)) && p + |Escape(s)| == |b|
    ensures QuoteEnd(b, p) == |b|
    decreases |s|
  {
    hide TextAt;
    if s != "" {
      var head := if s[0] == QUOTE then [QUOTE, QUOTE] else [s[0]];
      TextSplit(b, p, head, Escape(s[1..]));
      TextChar(b, p, head, 0);
      if s[0] == QUOTE { TextChar(b, p, head, 1); }
      UnclosedEnd(b, p + |head|, s[1..]);
    }
  }

  lemma UnclosedField(b: string, p: nat, s: string)
    requires TextAt(b, p, [QUOTE] + Escape(s)) && p + 1 + |Escape(s)| == |b|
    ensures ScanField(b, p) == (s, |b|)
  {
    hide QuoteEnd, PlainEnd, Unescape, Escape, TextAt;
    TextSplit(b, p, [QUOTE], Escape(s));
    TextChar(b, p, [QUOTE], 0);
    TextIs(b, p + 1, Escape(s));
    UnclosedEnd(b, p + 1, s);
    UnescapeEscape(s);
    assert b[p + 1..] == b[p + 1..|b|];
  }

  /** and no row begins in it. */
  lemma {:induction false} UnclosedRows(b: string, p: nat)
    requires p <= |b| && forall k :: p <= k < |b| ==> b[k] != QUOTE
    ensures Splits(b, p, true) == []
    decreases |b| - p
  {
    if p < |b| { UnclosedRows(b, p + 1); }
  }

  lemma PlainField(b: string, p: nat, s: string)
    requires !NeedsQuote(s) && TextAt(b, p, s) && StopsAt(b, p + |s|)
    ensures ScanField(b, p) == (s, PastDelim(b, p + |s|))
  {
    hide QuoteEnd, PlainEnd, Unescape, TextAt;
    TextLength(b, p, s);
    TextIs(b, p, s);
    if s != "" { TextChar(b, p, s, 0); TailPlain(s); }
    PlainScan(b, p, s);
  }

  /** A written field in front of a delimiter, a row end or the end of the file is scanned
      back. */
  lemma FieldScan(b: string, p: nat, s: string)
    requires TextAt(b, p, Written(s)) && StopsAt(b, p + |Written(s)|)
    ensures ScanField(b, p) == (s, PastDelim(b, p + |Written(s)|))
  {
    hide ScanField, Escape, TextAt, PastDelim;
    if NeedsQuote(s) {
      assert Written(s) == [QUOTE] + (Escape(s) + [QUOTE]);
      QuotedField(b, p, s);
    } else {
      PlainField(b, p, s);
    }
  }

  // ----- rows are split where they end -----

  lemma {:induction false} SplitsPlain(b: string, p: nat, s: string)
    requires TextAt(b, p, s) && !NeedsQuote(s)
    ensures Splits(b, p, false) == Splits(b, p + |s|, false)
    decreases |s|
  {
    if s != "" {
      hide NeedsQuote, TextAt;
      TextChar(b, p, s, 0);
      TailPlain(s);
      TextSplit(b, p, [s[0]], s[1..]);
      TextLength(b, p, s);
      SplitsPlain(b, p + 1, s[1..]);
    }
  }

  lemma {:induction false} SplitsQuoted(b: string, p: nat, s: string)
    requires TextAt(b, p, Escape(s))
    ensures Splits(b, p, true) == Splits(b, p + |Escape(s)|, true)
    decreases |s|
  {
    if s != "" {
      var head := if s[0] == QUOTE then [QUOTE, QUOTE] else [s[0]];
      TextSplit(b, p, head, Escape(s[1..]));
      TextChar(b, p, head, 0);
      if s[0] == QUOTE { TextChar(b, p, head, 1); }
      SplitsQuoted(b, p + |head|, s[1..]);
    }
  }

  lemma SplitsField(b: string, p: nat, s: string)
    requires TextAt(b, p, Written(s))
    ensures p <= p + |Written(s)| <= |b| && Splits(b, p, false) == Splits(b, p + |Written(s)|, false)
  {
    hide Escape, TextAt, Splits, NeedsQuote;
    TextLength(b, p, Written(s));
    if NeedsQuote(s) {
      assert Written(s) == [QUOTE] + (Escape(s) + [QUOTE]);
      TextSplit(b, p, [QUOTE], Escape(s) + [QUOTE]);
      TextChar(b, p, [QUOTE], 0);
      TextSplit(b, p + 1, Escape(s), [QUOTE]);
      SplitsQuoted(b, p + 1, s);
      TextChar(b, p + 1 + |Escape(s)|, [QUOTE], 0);
      SplitsPastQuote(b, p, false);
      SplitsPastQuote(b, p + 1 + |Escape(s)|, true);
    } else {
      SplitsPlain(b, p, s);
    }
  }

  lemma SplitsPastQuote(b: string, p: nat, inQuote: bool)
    requires p < |b| && b[p] == QUOTE
    ensures Splits(b, p, inQuote) == Splits(b, p + 1, !inQuote)
  {
  }

  lemma CellWritten(c: Cell)
    ensures CellText(c) == Written(if c.None? then "" else c.value)
  {
  }

  /** Without quotes and carriage returns both ways of splitting agree. */
  lemma {:induction false} SplitsAgree(b: string, p: nat)
    requires p <= |b| && QUOTE !in b[p..] && '\r' !in b[p..]
    ensures PlainSplits(b, p) == Splits(b, p, false)
    decreases |b| - p
  {
    if p < |b| {
      assert b[p] in b[p..] && forall c :: c in b[p + 1..] ==> c in b[p..];
      if b[p] == '\n' {
        if p + 1 < |b| { assert b[p + 1] in b[p..]; }
        SplitsAgree(b, p + 1);
        EmptySplits(b);
      } else {
        SplitsAgree(b, p + 1);
        assert FindNewline(b, p) == FindNewline(b, p + 1);
      }
    }
  }

  lemma EmptySplits(b: string)
    ensures Splits(b, |b|, false) == []
  {
  }

  // ----- the whole table -----

  /** What a cell can come back as: an empty string is null, and a string of the last
      column loses a carriage return at its end. */
  function Kept(c: Cell, last: bool): Cell { if c.None? then None else CellOf(c.value, last) }

  function KeptRow(row: seq<Cell>): seq<Cell> { seq(|row|, i requires 0 <= i < |row| => Kept(row[i], i == |row| - 1)) }

  function RowsRead(b: string, starts: seq<nat>, n: nat): seq<seq<Cell>>
    requires forall i :: 0 <= i < |starts| ==> starts[i] <= |b|
  {
    seq(|starts|, i requires 0 <= i < |starts| => RowCells(b, starts[i], RowEnd(b, starts, i), 0, n))
  }

  function RowEnd(b: string, starts: seq<nat>, i: nat): nat
    requires i < |starts|
  {
    if i + 1 < |starts| then starts[i + 1] else |b|
  }

  // ----- the header line -----

  function HeaderRow(names: seq<string>): seq<Cell> { seq(|names|, i requires 0 <= i < |names| => Some(names[i])) }

  /** Delimiters outside quotes on the first line. */
  function Delims(b: string, p: nat, inQuote: bool): nat
    requires p <= |b|
    decreases |b| - p
  {
    if p == |b| || (!inQuote && (b[p] == '\n' || b[p] == '\r')) then 0
    else if b[p] == QUOTE then Delims(b, p + 1, !inQuote)
    else (if !inQuote && b[p] == DELIM then 1 else 0) + Delims(b, p + 1, inQuote)
  }

  /** The first `n` fields from `p` on, and the position behind them. */
  function HeaderFields(b: string, p: nat, n: nat): (r: (seq<string>, nat))
    requires p <= |b|
    ensures p <= r.1 <= |b| && |r.0| == n
    decreases n
  {
    if n == 0 then ([], p)
    else
      var f := ScanField(b, p);
      var r := HeaderFields(b, f.1, n - 1);
      ([f.0] + r.0, r.1)
  }

  /** One line terminator. */
  function PastLine(b: string, p: nat): (q: nat)
    requires p <= |b|
    ensures p <= q <= |b|
  {
    var q := if p < |b| && b[p] == '\r' then p + 1 else p;
    if q < |b| && b[q] == '\n' then q + 1 else q
  }

  /** A file as its reader sees it: column names, and the rows of cells. */
  function ReadFile(b: string): (seq<string>, seq<seq<Cell>>) {
    var n := Delims(b, 0, false) + 1;
    var header := HeaderFields(b, 0, n);
    var data := PastLine(b, header.1);
    var starts := RowOffsets(b, data);
    OffsetsInside(b, data);
    (header.0, RowsRead(b, starts, n))
  }

  lemma {:induction false} SplitsInside(b: string, p: nat, inQuote: bool)
    requires p <= |b|
    ensures forall i :: 0 <= i < |Splits(b, p, inQuote)| ==> Splits(b, p, inQuote)[i] <= |b|
    decreases |b| - p
  {
    if p < |b| {
      if b[p] == QUOTE {
        SplitsInside(b, p + 1, !inQuote);
      } else if !inQuote && (b[p] == '\n' || b[p] == '\r') {
        SplitsInside(b, if b[p] == '\r' && p + 1 < |b| && b[p + 1] == '\n' then p + 2 else p + 1, inQuote);
      } else {
        SplitsInside(b, p + 1, inQuote);
      }
    }
  }

  lemma {:induction false} PlainInside(b: string, p: nat)
    requires p <= |b|
    ensures forall i :: 0 <= i < |PlainSplits(b, p)| ==> PlainSplits(b, p)[i] <= |b|
    decreases |b| - p
  {
    var nl := FindNewline(b, p);
    if nl < |b| {
      var q := if nl + 1 < |b| && b[nl + 1] == '\r' then nl + 2 else nl + 1;
      if q < |b| { PlainInside(b, q); }
    }
  }

  lemma OffsetsInside(b: string, p: nat)
    requires p <= |b|
    ensures forall i :: 0 <= i < |RowOffsets(b, p)| ==> RowOffsets(b, p)[i] <= |b|
  {
    hide Splits, PlainSplits;
    SplitsInside(b, p, false);
    PlainInside(b, p);
  }

  lemma {:induction false} DelimsPlain(b: string, p: nat, s: string)
    requires TextAt(b, p, s) && !NeedsQuote(s)
    ensures Delims(b, p, false) == Delims(b, p + |s|, false)
    decreases |s|
  {
    if s != "" {
      hide NeedsQuote, TextAt;
      TextChar(b, p, s, 0);
      TailPlain(s);
      TextSplit(b, p, [s[0]], s[1..]);
      TextLength(b, p, s);
      DelimsPlain(b, p + 1, s[1..]);
    }
  }

  lemma {:induction false} DelimsQuoted(b: string, p: nat, s: string)
    requires TextAt(b, p, Escape(s))
    ensures Delims(b, p, true) == Delims(b, p + |Escape(s)|, true)
    decreases |s|
  {
    if s != "" {
      var head := if s[0] == QUOTE then [QUOTE, QUOTE] else [s[0]];
      TextSplit(b, p, head, Escape(s[1..]));
      TextChar(b, p, head, 0);
      if s[0] == QUOTE { TextChar(b, p, head, 1); }
      DelimsQuoted(b, p + |head|, s[1..]);
    }
  }

  lemma DelimsField(b: string, p: nat, s: string)
    requires TextAt(b, p, Written(s))
    ensures Delims(b, p, false) == Delims(b, p + |Written(s)|, false)
  {
    hide Escape;
    if NeedsQuote(s) {
      assert Written(s) == [QUOTE] + (Escape(s) + [QUOTE]);
      TextSplit(b, p, [QUOTE], Escape(s) + [QUOTE]);
      TextChar(b, p, [QUOTE], 0);
      TextSplit(b, p + 1, Escape(s), [QUOTE]);
      DelimsQuoted(b, p + 1, s);
      TextChar(b, p + 1 + |Escape(s)|, [QUOTE], 0);
    } else {
      DelimsPlain(b, p, s);
    }
  }

  /** ray_write_csv: the header line, then the rows. */
  function FileText(names: seq<string>, rows: seq<seq<Cell>>): string
    requires names != [] && forall i :: 0 <= i < |rows| ==> rows[i] != []
  {
    RowText(HeaderRow(names)) + TableText(rows)
  }

  function KeptRows(rows: seq<seq<Cell>>): seq<seq<Cell>> {
    seq(|rows|, i requires 0 <= i < |rows| => KeptRow(rows[i]))
  }
}
