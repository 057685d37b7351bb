/** The writer and the reader themselves: output built piece by piece, buffers scanned
    and columns filled in place, serially or in tasks. */
module CsvFile {
  import opened Options
  import opened CsvText
  import opened CsvLines
  import opened DispatchRing

  // ----- writing -----

  lemma {:induction false} EscapeSnoc(s: string, c: char)
    ensures Escape(s + [c]) == Escape(s) + if c == QUOTE then [QUOTE, QUOTE] else [c]
  {
    if s == "" {
      assert (s + [c])[1..] == "";
    } else {
      assert (s + [c])[1..] == s[1..] + [c];
      EscapeSnoc(s[1..], c);
    }
  }

  class Writer {
    var out: string

    constructor ()
      ensures out == ""
    {
      out := "";
    }

    method Put(s: string)
      modifies this
      ensures out == old(out) + s
    {
      out := out + s;
    }

    /** csv_write_str: each quote closes a stretch copied as it is, and opens the next,
        so that it is written twice. */
    method WriteStr(s: string)
      modifies this
      ensures out == old(out) + Written(s)
    {
      hide Escape;
      var needQuote := false;
      var i := 0;
      while i < |s| && !needQuote
        invariant 0 <= i <= |s|
        invariant !needQuote ==> !NeedsQuote(s[..i])
        invariant needQuote ==> NeedsQuote(s)
      {
        assert s[..i + 1] == s[..i] + [s[i]] && s[i] in s;
        if s[i] == DELIM || s[i] == QUOTE || s[i] == '\n' || s[i] == '\r' { needQuote := true; }
        i := i + 1;
      }
      assert !needQuote ==> s[..i] == s;
      if needQuote {
        WriteQuoted(s);
      } else {
        Put(s);
      }
    }

    method WriteQuoted(s: string)
      modifies this
      ensures out == old(out) + ([QUOTE] + Escape(s) + [QUOTE])
    {
      hide Escape;
      ghost var before := out + [QUOTE];
      Put([QUOTE]);
      var start, i := 0, 0;
      EscapeNothing();
      assert out + s[0..0] == before + Escape(s[..0]);
      while i < |s|
        invariant 0 <= start <= i <= |s|
        invariant out + s[start..i] == before + Escape(s[..i])
      {
        assert s[..i + 1] == s[..i] + [s[i]];
        EscapeSnoc(s[..i], s[i]);
        if s[i] == QUOTE {
          ghost var done := before + Escape(s[..i]);
          Put(s[start..i]);
          Put([QUOTE]);
          start := i;
          assert s[i..i + 1] == [QUOTE];
          assert out == done + [QUOTE];
          assert (done + [QUOTE]) + [QUOTE] == before + (Escape(s[..i]) + [QUOTE, QUOTE]);
        } else {
          assert (before + Escape(s[..i])) + [s[i]] == before + (Escape(s[..i]) + [s[i]]);
          assert (out + s[start..i]) + [s[i]] == out + (s[start..i] + [s[i]]);
          assert s[start..i + 1] == s[start..i] + [s[i]];
        }
        i := i + 1;
      }
      assert s[..i] == s;
      Put(s[start..]);
      assert s[start..] == s[start..i];
      Put([QUOTE]);
    }

    method WriteRow(row: seq<Cell>)
      requires row != []
      modifies this
      ensures out == old(out) + RowText(row)
    {
      hide Written, RowText;
      var c := 0;
      assert row[0..] == row;
      while c < |row|
        invariant 0 <= c <= |row|
        invariant c < |row| ==> out + (if c > 0 then [DELIM] else "") + RowText(row[c..]) == old(out) + RowText(row)
        invariant c == |row| ==> out + ['\n'] == old(out) + RowText(row)
      {
        RowStep(row[c..]);
        if c > 0 { Put([DELIM]); }
        if row[c].Some? { WriteStr(row[c].value); }
        assert row[c..][1..] == row[c + 1..];
        c := c + 1;
      }
      Put(['\n']);
    }

    /** ray_write_csv: the column names, then every row. */
    method WriteFile(names: seq<string>, rows: seq<seq<Cell>>)
      requires names != [] && (forall i :: 0 <= i < |rows| ==> rows[i] != [])
      modifies this
      ensures out == old(out) + FileText(names, rows)
    {
      hide RowText;
      WriteRow(HeaderRow(names));
      var r := 0;
      assert rows[0..] == rows;
      while r < |rows|
        invariant 0 <= r <= |rows|
        invariant out + TableText(rows[r..]) == old(out) + FileText(names, rows)
      {
        assert rows[r..][1..] == rows[r + 1..];
        WriteRow(rows[r]);
        r := r + 1;
      }
      assert TableText(rows[r..]) == "";
    }
  }

  lemma EscapeNothing()
    ensures Escape("") == ""
  {
  }

  lemma RowStep(row: seq<Cell>)
    requires row != []
    ensures RowText(row) == CellText(row[0]) + if |row| == 1 then ['\n'] else [DELIM] + RowText(row[1..])
  {
  }

  // ----- scanning -----

  lemma UnescapePlain(s: string)
    requires QUOTE !in s
    ensures Unescape(s) == s
  {
    if s != "" {
      assert s[0] in s && forall c :: c in s[1..] ==> c in s;
      UnescapePlain(s[1..]);
    }
  }

  lemma {:induction false} UnescapeAppend(a: string, rest: string, i: nat)
    requires i <= |rest|
    ensures a + Unescape(rest[i..]) == if i == |rest| then a
            else if rest[i] == QUOTE && i + 1 < |rest| && rest[i + 1] == QUOTE
              then (a + [QUOTE]) + Unescape(rest[i + 2..])
            else (a + [rest[i]]) + Unescape(rest[i + 1..])
  {
    if i < |rest| {
      var t := rest[i..];
      assert t[1..] == rest[i + 1..];
      if |t| > 1 { assert t[1] == rest[i + 1] && t[2..] == rest[i + 2..]; }
    }
  }

  /** The copy loop that makes one quote of two. */
  method Collapse(raw: string) returns (dest: string)
    ensures dest == Unescape(raw)
  {
    hide Unescape;
    dest := "";
    var s := 0;
    assert raw[0..] == raw;
    while s < |raw|
      invariant 0 <= s <= |raw|
      invariant dest + Unescape(raw[s..]) == Unescape(raw)
      decreases |raw| - s
    {
      UnescapeAppend(dest, raw, s);
      if raw[s] == QUOTE && s + 1 < |raw| && raw[s + 1] == QUOTE {
        dest := dest + [QUOTE];
        s := s + 1;
      } else {
        dest := dest + [raw[s]];
      }
      s := s + 1;
    }
    UnescapeAppend(dest, raw, s);
  }

  /** scan_field_quoted, from the opening quote on. */
  method ScanQuoted(b: string, start: nat) returns (field: string, next: nat)
    requires start < |b| && b[start] == QUOTE
    ensures (field, next) == ScanField(b, start) && next <= |b|
  {
    hide Unescape;
    var p := start + 1;
    var first := p;
    var hasEscape := false;
    while p < |b|
      invariant first <= p <= |b|
      invariant QuoteEnd(b, p) == QuoteEnd(b, first)
      invariant !hasEscape ==> QUOTE !in b[first..p]
      decreases |b| - p
    {
      if b[p] == QUOTE {
        if p + 1 < |b| && b[p + 1] == QUOTE {
          hasEscape := true;
          p := p + 2;
        } else {
          break;
        }
      } else {
        assert b[first..p + 1] == b[first..p] + [b[p]];
        p := p + 1;
      }
    }
    var raw := b[first..p];
    if p < |b| && b[p] == QUOTE { p := p + 1; }
    if hasEscape {
      field := Collapse(raw);
    } else {
      UnescapePlain(raw);
      field := raw;
    }
    if p < |b| && b[p] == DELIM { p := p + 1; }
    next := p;
  }

  /** scan_field. */
  method Scan(b: string, start: nat) returns (field: string, next: nat)
    requires start <= |b|
    ensures (field, next) == ScanField(b, start) && next <= |b|
  {
    if start >= |b| { return "", start; }
    if b[start] != QUOTE {
      var p := start;
      while p < |b| && b[p] != DELIM && b[p] != '\n' && b[p] != '\r'
        invariant start <= p <= |b| && PlainEnd(b, p) == PlainEnd(b, start)
      {
        p := p + 1;
      }
      field := b[start..p];
      if p < |b| && b[p] == DELIM { return field, p + 1; }
      return field, p;
    }
    field, next := ScanQuoted(b, start);
  }

  method NextNewline(b: string, p: nat) returns (nl: nat)
    requires p <= |b|
    ensures nl == FindNewline(b, p) && nl <= |b| && (nl < |b| ==> b[nl] == '\n')
  {
    nl := p;
    while nl < |b| && b[nl] != '\n'
      invariant p <= nl <= |b| && FindNewline(b, nl) == FindNewline(b, p)
    {
      nl := nl + 1;
    }
  }

  /** build_row_offsets. */
  method BuildRowOffsets(b: string, data: nat) returns (offs: seq<nat>)
    requires data <= |b|
    ensures offs == RowOffsets(b, data)
  {
    hide Splits, PlainSplits;
    if data >= |b| { return []; }
    var hasQuotes := QUOTE in b[data..];
    if !hasQuotes {
      offs := PlainOffsets(b, data);
    } else {
      offs := ParityOffsets(b, data);
    }
  }

  method PlainOffsets(b: string, data: nat) returns (offs: seq<nat>)
    requires data < |b|
    ensures offs == [data] + PlainSplits(b, data)
  {
    var p := data;
    offs := [data];
    while true
      invariant data <= p < |b| && offs + PlainSplits(b, p) == [data] + PlainSplits(b, data)
      decreases |b| - p
    {
      var nl := NextNewline(b, p);
      if nl == |b| { return; }
      p := nl + 1;
      if p < |b| && b[p] == '\r' { p := p + 1; }
      if p >= |b| { return; }
      offs := offs + [p];
    }
  }

  method ParityOffsets(b: string, data: nat) returns (offs: seq<nat>)
    requires data < |b|
    ensures offs == [data] + Splits(b, data, false)
  {
    var p := data;
    var inQuote := false;
    offs := [data];
    while p < |b|
      invariant data <= p <= |b| && offs + Splits(b, p, inQuote) == [data] + Splits(b, data, false)
      decreases |b| - p
    {
      var c := b[p];
      if c == QUOTE {
        inQuote := !inQuote;
        p := p + 1;
      } else if !inQuote && (c == '\n' || c == '\r') {
        if c == '\r' && p + 1 < |b| && b[p + 1] == '\n' { p := p + 1; }
        p := p + 1;
        if p < |b| { offs := offs + [p]; }
      } else {
        p := p + 1;
      }
    }
  }

  // ----- filling columns -----

  /** String columns under construction: the cells, the null bytes of each column as the
      sets of their set bits, and each worker's record of which columns had nulls. */
  class Columns {
    const cells: array2<Cell>
    const nulls: array2<set<nat>>
    const hadNull: array2<bool>

    constructor (rows: nat, n: nat, workers: nat)
      ensures fresh(cells) && fresh(nulls) && fresh(hadNull)
      ensures cells.Length0 == rows && cells.Length1 == n && nulls.Length0 == n && nulls.Length1 == (rows + 7) / 8
      ensures hadNull.Length0 == workers && hadNull.Length1 == n
      ensures forall c, k :: 0 <= c < n && 0 <= k < nulls.Length1 ==> nulls[c, k] == {}
      ensures forall w, c :: 0 <= w < workers && 0 <= c < n ==> !hadNull[w, c]
    {
      cells := new Cell[rows, n]((i, j) => None);
      nulls := new set<nat>[n, (rows + 7) / 8]((i, j) => {});
      hadNull := new bool[workers, n]((i, j) => false);
    }

    ghost predicate Shaped(rows: nat, n: nat) {
      cells.Length0 == rows && cells.Length1 == n && nulls.Length0 == n && nulls.Length1 == (rows + 7) / 8
        && hadNull.Length1 == n
    }

    predicate Marked(row: nat, c: nat)
      requires c < nulls.Length0 && row / 8 < nulls.Length1
      reads nulls
    {
      row % 8 in nulls[c, row / 8]
    }

    /** A cell and its null bit as the file says, for the first `k` columns. */
    ghost predicate Filled(row: nat, spec: seq<Cell>, k: nat)
      requires row < cells.Length0 && row / 8 < nulls.Length1 && |spec| == cells.Length1 == nulls.Length0 && k <= |spec|
      reads cells, nulls
    {
      forall c :: 0 <= c < k ==> cells[row, c] == spec[c] && (Marked(row, c) <==> spec[c].None?)
    }

    /** One field stored; a null sets its bit and the worker's record. */
    method Store(row: nat, c: nat, v: Cell, worker: nat)
      requires row < cells.Length0 && c < cells.Length1 && c < nulls.Length0 && row / 8 < nulls.Length1
      requires worker < hadNull.Length0 && c < hadNull.Length1
      modifies cells, nulls, hadNull
      ensures cells[row, c] == v
      ensures forall r, d :: 0 <= r < cells.Length0 && 0 <= d < cells.Length1 && (r != row || d != c) ==>
                cells[r, d] == old(cells[r, d])
      ensures Marked(row, c) == (old(Marked(row, c)) || v.None?)
      ensures forall r: nat, d: nat :: d < nulls.Length0 && r / 8 < nulls.Length1 && (d != c || r != row) ==>
                Marked(r, d) == old(Marked(r, d))
      ensures hadNull[worker, c] == (old(hadNull[worker, c]) || v.None?)
      ensures forall w, d :: 0 <= w < hadNull.Length0 && 0 <= d < hadNull.Length1 && (w != worker || d != c) ==>
                hadNull[w, d] == old(hadNull[w, d])
    {
      SameByte(row);
      cells[row, c] := v;
      if v.None? {
        nulls[c, row / 8] := nulls[c, row / 8] + {row % 8};
        hadNull[worker, c] := true;
      }
    }
  }

  /** What row `row` of the file says. */
  function RowSpec(b: string, starts: seq<nat>, n: nat, row: nat): (r: seq<Cell>)
    requires row < |starts| && starts[row] <= |b|
    ensures |r| == n
  {
    RowCells(b, starts[row], RowEnd(b, starts, row), 0, n)
  }

  ghost predicate GoodStarts(b: string, starts: seq<nat>) { forall i :: 0 <= i < |starts| ==> starts[i] <= |b| }

  /** Column `d` is null in some row of the range. */
  ghost predicate NullIn(b: string, starts: seq<nat>, n: nat, d: nat, lo: nat, hi: nat)
    requires GoodStarts(b, starts) && hi <= |starts| && d < n
  {
    exists r: nat :: lo <= r < hi && RowSpec(b, starts, n, r)[d].None?
  }

  lemma CellStep(b: string, p: nat, rowEnd: nat, c: nat, n: nat)
    requires p <= |b| && c < n
    ensures var cells := RowCells(b, p, rowEnd, c, n);
            if p >= rowEnd then cells[0] == None && RowCells(b, p, rowEnd, c + 1, n) == cells[1..]
            else var f := ScanField(b, p);
                 cells[0] == CellOf(f.0, c == n - 1) && RowCells(b, f.1, rowEnd, c + 1, n) == cells[1..]
  {
  }

  /** The body of the row loop, the same for the serial and the parallel reader. Past the
      row's end the position no longer moves and every further cell is null. */
  method ParseRow(cols: Columns, b: string, starts: seq<nat>, n: nat, row: nat, worker: nat)
    requires GoodStarts(b, starts) && cols.Shaped(|starts|, n) && row < |starts| && worker < cols.hadNull.Length0
    requires forall c :: 0 <= c < n ==> !cols.Marked(row, c)
    modifies cols.cells, cols.nulls, cols.hadNull
    ensures cols.Filled(row, RowSpec(b, starts, n, row), n)
    ensures forall r, d :: 0 <= r < |starts| && 0 <= d < n && r != row ==> cols.cells[r, d] == old(cols.cells[r, d])
    ensures forall r: nat, d: nat :: r < |starts| && d < n && r != row ==> cols.Marked(r, d) == old(cols.Marked(r, d))
    ensures forall d :: 0 <= d < n ==>
              cols.hadNull[worker, d] == (old(cols.hadNull[worker, d]) || RowSpec(b, starts, n, row)[d].None?)
    ensures forall w, d :: 0 <= w < cols.hadNull.Length0 && 0 <= d < n && w != worker ==>
              cols.hadNull[w, d] == old(cols.hadNull[w, d])
  {
    hide RowCells, ScanField;
    var p: nat := starts[row];
    var rowEnd := RowEnd(b, starts, row);
    ghost var spec := RowSpec(b, starts, n, row);
    var c: nat := 0;
    while c < n
      invariant 0 <= c <= n && p <= |b| && RowCells(b, p, rowEnd, c, n) == spec[c..]
      invariant cols.Filled(row, spec, c)
      invariant forall d: nat :: c <= d < n ==> !cols.Marked(row, d)
      invariant forall d: nat :: c <= d < n ==> cols.hadNull[worker, d] == old(cols.hadNull[worker, d])
      invariant forall r, d :: 0 <= r < |starts| && 0 <= d < n && r != row ==> cols.cells[r, d] == old(cols.cells[r, d])
      invariant forall r: nat, d: nat :: r < |starts| && d < n && r != row ==>
                  cols.Marked(r, d) == old(cols.Marked(r, d))
      invariant forall d :: 0 <= d < c ==> cols.hadNull[worker, d] == (old(cols.hadNull[worker, d]) || spec[d].None?)
      invariant forall w, d :: 0 <= w < cols.hadNull.Length0 && 0 <= d < n && w != worker ==>
                  cols.hadNull[w, d] == old(cols.hadNull[w, d])
    {
      CellStep(b, p, rowEnd, c, n);
      var v: Cell := None;
      if p < rowEnd {
        var field, next := Scan(b, p);
        v := CellOf(field, c == n - 1);
        p := next;
      }
      assert spec[c..][0] == spec[c] && spec[c..][1..] == spec[c + 1..];
      cols.Store(row, c, v, worker);
      c := c + 1;
    }
  }

  lemma SameByte(row: nat)
    ensures forall r: nat :: r / 8 == row / 8 && r % 8 == row % 8 ==> r == row
  {
  }

  lemma NullInNext(b: string, starts: seq<nat>, n: nat, d: nat, lo: nat, hi: nat)
    requires GoodStarts(b, starts) && lo <= hi < |starts| && d < n
    ensures NullIn(b, starts, n, d, lo, hi + 1) <==>
              NullIn(b, starts, n, d, lo, hi) || RowSpec(b, starts, n, hi)[d].None?
  {
    hide RowSpec;
    if NullIn(b, starts, n, d, lo, hi + 1) && !NullIn(b, starts, n, d, lo, hi) {
      var r: nat :| lo <= r < hi + 1 && RowSpec(b, starts, n, r)[d].None?;
    }
  }

  /** The rows of one task, as csv_parse_fn and csv_parse_serial go through them. */
  method ParseRange(cols: Columns, b: string, starts: seq<nat>, n: nat, lo: nat, hi: nat, worker: nat)
    requires GoodStarts(b, starts) && cols.Shaped(|starts|, n) && lo <= hi <= |starts| && worker < cols.hadNull.Length0
    requires forall r: nat, c: nat :: lo <= r < hi && c < n ==> !cols.Marked(r, c)
    modifies cols.cells, cols.nulls, cols.hadNull
    ensures forall r: nat :: lo <= r < hi ==> cols.Filled(r, RowSpec(b, starts, n, r), n)
    ensures forall r: nat, d: nat :: r < |starts| && d < n && !(lo <= r < hi) ==>
              cols.cells[r, d] == old(cols.cells[r, d])
    ensures forall r: nat, d: nat :: r < |starts| && d < n && !(lo <= r < hi) ==>
              cols.Marked(r, d) == old(cols.Marked(r, d))
    ensures forall d: nat :: d < n ==>
              cols.hadNull[worker, d] == (old(cols.hadNull[worker, d]) || NullIn(b, starts, n, d, lo, hi))
    ensures forall w: nat, d: nat :: w < cols.hadNull.Length0 && d < n && w != worker ==>
              cols.hadNull[w, d] == old(cols.hadNull[w, d])
  {
    hide RowSpec, NullIn;
    var row: nat := lo;
    NullInNone(b, starts, n, lo);
    while row < hi
      invariant lo <= row <= hi
      invariant forall r: nat :: lo <= r < row ==> cols.Filled(r, RowSpec(b, starts, n, r), n)
      invariant forall r: nat, d: nat :: r < |starts| && d < n && !(lo <= r < row) ==>
                  cols.cells[r, d] == old(cols.cells[r, d])
      invariant forall r: nat, d: nat :: r < |starts| && d < n && !(lo <= r < row) ==>
                  cols.Marked(r, d) == old(cols.Marked(r, d))
      invariant forall d: nat :: d < n ==>
                  cols.hadNull[worker, d] == (old(cols.hadNull[worker, d]) || NullIn(b, starts, n, d, lo, row))
      invariant forall w: nat, d: nat :: w < cols.hadNull.Length0 && d < n && w != worker ==>
                  cols.hadNull[w, d] == old(cols.hadNull[w, d])
    {
      forall d: nat | d < n { NullInNext(b, starts, n, d, lo, row); }
      ParseRow(cols, b, starts, n, row, worker);
      row := row + 1;
    }
  }

  lemma NullInNone(b: string, starts: seq<nat>, n: nat, lo: nat)
    requires GoodStarts(b, starts) && lo <= |starts|
    ensures forall d: nat :: d < n ==> !NullIn(b, starts, n, d, lo, lo)
  {
  }

  /** Every cell, every null bit: the columns of the whole file. */
  ghost predicate AllFilled(cols: Columns, b: string, starts: seq<nat>, n: nat)
    requires GoodStarts(b, starts) && cols.Shaped(|starts|, n)
    reads cols, cols.cells, cols.nulls
  {
    forall r: nat :: r < |starts| ==> cols.Filled(r, RowSpec(b, starts, n, r), n)
  }

  /** csv_parse_serial: one range, one worker. */
  method ParseSerial(cols: Columns, b: string, starts: seq<nat>, n: nat)
    requires GoodStarts(b, starts) && cols.Shaped(|starts|, n) && 0 < cols.hadNull.Length0
    requires forall r: nat, c: nat :: r < |starts| && c < n ==> !cols.Marked(r, c)
    requires forall w, d :: 0 <= w < cols.hadNull.Length0 && 0 <= d < n ==> !cols.hadNull[w, d]
    modifies cols.cells, cols.nulls, cols.hadNull
    ensures AllFilled(cols, b, starts, n)
    ensures forall d: nat :: d < n ==> cols.hadNull[0, d] == NullIn(b, starts, n, d, 0, |starts|)
  {
    hide RowSpec, NullIn;
    ParseRange(cols, b, starts, n, 0, |starts|, 0);
  }

  /** A task handed to a worker. */
  datatype Job = Job(task: nat, worker: nat)

  ghost predicate Covered(tasks: seq<Task>, jobs: seq<Job>, r: nat) {
    exists i :: 0 <= i < |jobs| && jobs[i].task < |tasks| && InTask(tasks[jobs[i].task], r)
  }

  ghost predicate HasJob(jobs: seq<Job>, t: nat) { exists i :: 0 <= i < |jobs| && jobs[i].task == t }

  /** Each task is some job, and no task is two. */
  ghost predicate EachOnce(tasks: seq<Task>, jobs: seq<Job>) {
    && (forall i :: 0 <= i < |jobs| ==> jobs[i].task < |tasks|)
    && (forall t: nat :: t < |tasks| ==> HasJob(jobs, t))
    && (forall i, j :: 0 <= i < j < |jobs| ==> jobs[i].task != jobs[j].task)
  }

  lemma CoveredNext(tasks: seq<Task>, jobs: seq<Job>, i: nat, r: nat)
    requires i < |jobs| && jobs[i].task < |tasks|
    ensures Covered(tasks, jobs[..i + 1], r) <==> Covered(tasks, jobs[..i], r) || InTask(tasks[jobs[i].task], r)
  {
    if Covered(tasks, jobs[..i], r) {
      var k :| 0 <= k < i && jobs[..i][k].task < |tasks| && InTask(tasks[jobs[..i][k].task], r);
      assert jobs[..i + 1][k] == jobs[..i][k];
    }
    if InTask(tasks[jobs[i].task], r) { assert jobs[..i + 1][i] == jobs[i]; }
    if Covered(tasks, jobs[..i + 1], r) {
      var k :| 0 <= k < i + 1 && jobs[..i + 1][k].task < |tasks| && InTask(tasks[jobs[..i + 1][k].task], r);
      if k < i { assert jobs[..i][k] == jobs[..i + 1][k]; }
    }
  }

  lemma CoveringJob(tasks: seq<Task>, jobs: seq<Job>, i: nat, r: nat) returns (k: nat)
    requires i <= |jobs| && Covered(tasks, jobs[..i], r)
    ensures k < i && jobs[k].task < |tasks| && InTask(tasks[jobs[k].task], r)
  {
    k :| 0 <= k < i && jobs[..i][k].task < |tasks| && InTask(tasks[jobs[..i][k].task], r);
  }

  lemma NotYetCovered(tasks: seq<Task>, jobs: seq<Job>, total: nat, i: nat, r: nat)
    requires EachOnce(tasks, jobs) && Partition(tasks, total) && i < |jobs| && r < total
             && InTask(tasks[jobs[i].task], r)
    ensures !Covered(tasks, jobs[..i], r)
  {
    assert InAtMostOne(tasks, r);
    if Covered(tasks, jobs[..i], r) { var k := CoveringJob(tasks, jobs, i, r); }
  }

  lemma AllCovered(tasks: seq<Task>, jobs: seq<Job>, total: nat, r: nat)
    requires EachOnce(tasks, jobs) && Partition(tasks, total) && r < total
    ensures Covered(tasks, jobs, r)
  {
    assert InSome(tasks, r);
    var t: nat :| t < |tasks| && InTask(tasks[t], r);
    assert HasJob(jobs, t);
    var i :| 0 <= i < |jobs| && jobs[i].task == t;
    assert InTask(tasks[jobs[i].task], r);
  }

  /** The worker flags combined as ray_read_csv_opts does. */
  ghost predicate SomeHad(cols: Columns, d: nat)
    requires d < cols.hadNull.Length1
    reads cols, cols.hadNull
  {
    exists w: nat :: w < cols.hadNull.Length0 && cols.hadNull[w, d]
  }

  /** Each task parsed once, one after the other, in any order and by any worker: the same
      cells, null bits and null flags as the serial reader makes. `CsvRaces` has the tasks
      side by side. */
  method ParseTasks(cols: Columns, b: string, starts: seq<nat>, n: nat, tasks: seq<Task>, jobs: seq<Job>)
    requires GoodStarts(b, starts) && cols.Shaped(|starts|, n)
    requires Partition(tasks, |starts|) && EachOnce(tasks, jobs)
    requires forall t :: 0 <= t < |tasks| ==> 0 <= tasks[t].start && tasks[t].end <= |starts|
    requires forall i :: 0 <= i < |jobs| ==> jobs[i].worker < cols.hadNull.Length0
    requires forall r: nat, c: nat :: r < |starts| && c < n ==> !cols.Marked(r, c)
    requires forall w, d :: 0 <= w < cols.hadNull.Length0 && 0 <= d < n ==> !cols.hadNull[w, d]
    modifies cols.cells, cols.nulls, cols.hadNull
    ensures AllFilled(cols, b, starts, n)
    ensures forall d: nat :: d < n ==> (SomeHad(cols, d) <==> NullIn(b, starts, n, d, 0, |starts|))
  {
    hide RowSpec, NullIn, Partition, EachOnce, Covered, InTask;
    var i: nat := 0;
    NoJobs(tasks, jobs);
    while i < |jobs|
      invariant i <= |jobs|
      invariant forall r: nat :: r < |starts| && Covered(tasks, jobs[..i], r) ==>
                  cols.Filled(r, RowSpec(b, starts, n, r), n)
      invariant forall r: nat, c: nat :: r < |starts| && c < n && !Covered(tasks, jobs[..i], r) ==> !cols.Marked(r, c)
      invariant forall d: nat :: d < n ==> (SomeHad(cols, d) <==> NullAmong(b, starts, n, d, tasks, jobs[..i]))
    {
      DoJob(cols, b, starts, n, tasks, jobs, i);
      i := i + 1;
    }
    assert jobs[..i] == jobs;
    forall r: nat | r < |starts| { AllCovered(tasks, jobs, |starts|, r); }
    forall d: nat | d < n { NullAnywhere(b, starts, n, d, tasks, jobs); }
  }

  /** Column `d` is null in a row of one of the jobs. */
  ghost predicate NullAmong(b: string, starts: seq<nat>, n: nat, d: nat, tasks: seq<Task>, jobs: seq<Job>)
    requires GoodStarts(b, starts) && d < n
  {
    exists r: nat :: r < |starts| && Covered(tasks, jobs, r) && RowSpec(b, starts, n, r)[d].None?
  }

  lemma NoJobs(tasks: seq<Task>, jobs: seq<Job>)
    ensures forall r: nat :: !Covered(tasks, jobs[..0], r)
  {
  }

  lemma NullAnywhere(b: string, starts: seq<nat>, n: nat, d: nat, tasks: seq<Task>, jobs: seq<Job>)
    requires GoodStarts(b, starts) && d < n && (forall r: nat :: r < |starts| ==> Covered(tasks, jobs, r))
    ensures NullAmong(b, starts, n, d, tasks, jobs) <==> NullIn(b, starts, n, d, 0, |starts|)
  {
    hide RowSpec, Covered;
    if NullIn(b, starts, n, d, 0, |starts|) {
      var r: nat :| 0 <= r < |starts| && RowSpec(b, starts, n, r)[d].None?;
    }
  }

  lemma NullAmongNext(b: string, starts: seq<nat>, n: nat, d: nat, tasks: seq<Task>, jobs: seq<Job>, i: nat)
    requires GoodStarts(b, starts) && d < n && i < |jobs| && jobs[i].task < |tasks|
    requires 0 <= tasks[jobs[i].task].start && tasks[jobs[i].task].end <= |starts|
    ensures var t := tasks[jobs[i].task];
            NullAmong(b, starts, n, d, tasks, jobs[..i + 1]) <==>
            NullAmong(b, starts, n, d, tasks, jobs[..i])
              || (t.start <= t.end && NullIn(b, starts, n, d, t.start, t.end))
  {
    hide RowSpec, Covered;
    var t := tasks[jobs[i].task];
    forall r: nat { CoveredNext(tasks, jobs, i, r); }
    if t.start <= t.end && NullIn(b, starts, n, d, t.start, t.end) {
      var r: nat :| t.start <= r < t.end && RowSpec(b, starts, n, r)[d].None?;
      assert InTask(t, r);
    }
    if NullAmong(b, starts, n, d, tasks, jobs[..i + 1]) {
      var r: nat :| r < |starts| && Covered(tasks, jobs[..i + 1], r) && RowSpec(b, starts, n, r)[d].None?;
      if InTask(t, r) { assert t.start <= t.end; }
    }
  }

  /** One job of the parallel reader; an empty task does nothing. */
  method DoJob(cols: Columns, b: string, starts: seq<nat>, n: nat, tasks: seq<Task>, jobs: seq<Job>, i: nat)
    requires GoodStarts(b, starts) && cols.Shaped(|starts|, n) && i < |jobs|
    requires Partition(tasks, |starts|) && EachOnce(tasks, jobs)
    requires forall t :: 0 <= t < |tasks| ==> 0 <= tasks[t].start && tasks[t].end <= |starts|
    requires jobs[i].worker < cols.hadNull.Length0
    requires forall r: nat :: r < |starts| && Covered(tasks, jobs[..i], r) ==>
               cols.Filled(r, RowSpec(b, starts, n, r), n)
    requires forall r: nat, c: nat :: r < |starts| && c < n && !Covered(tasks, jobs[..i], r) ==> !cols.Marked(r, c)
    requires forall d: nat :: d < n ==> (SomeHad(cols, d) <==> NullAmong(b, starts, n, d, tasks, jobs[..i]))
    modifies cols.cells, cols.nulls, cols.hadNull
    ensures forall r: nat :: r < |starts| && Covered(tasks, jobs[..i + 1], r) ==>
              cols.Filled(r, RowSpec(b, starts, n, r), n)
    ensures forall r: nat, c: nat :: r < |starts| && c < n && !Covered(tasks, jobs[..i + 1], r) ==> !cols.Marked(r, c)
    ensures forall d: nat :: d < n ==> (SomeHad(cols, d) <==> NullAmong(b, starts, n, d, tasks, jobs[..i + 1]))
  {
    hide RowSpec, NullIn, NullAmong, Partition, Covered;
    var t, worker := tasks[jobs[i].task], jobs[i].worker;
    forall r: nat { CoveredNext(tasks, jobs, i, r); }
    forall d: nat | d < n { NullAmongNext(b, starts, n, d, tasks, jobs, i); }
    if t.start > t.end { return; }
    forall r: nat | t.start <= r < t.end
      ensures !Covered(tasks, jobs[..i], r)
    {
      NotYetCovered(tasks, jobs, |starts|, i, r);
    }
    ParseRange(cols, b, starts, n, t.start, t.end, worker);
    forall r: nat, c: nat | r < |starts| && c < n && !Covered(tasks, jobs[..i + 1], r)
      ensures !cols.Marked(r, c)
    {
      assert !InTask(t, r) && !Covered(tasks, jobs[..i], r);
      assert !old(cols.Marked(r, c));
    }
    forall d: nat | d < n
      ensures SomeHad(cols, d) <==> old(SomeHad(cols, d)) || NullIn(b, starts, n, d, t.start, t.end)
    {
      if SomeHad(cols, d) {
        var w: nat :| w < cols.hadNull.Length0 && cols.hadNull[w, d];
        if w != worker { assert old(cols.hadNull[w, d]); }
      }
      if old(SomeHad(cols, d)) {
        var w: nat :| w < cols.hadNull.Length0 && old(cols.hadNull[w, d]);
        assert cols.hadNull[w, d];
      }
      if NullIn(b, starts, n, d, t.start, t.end) { assert cols.hadNull[worker, d]; }
    }
  }

  // ----- the reader as a whole -----

  const CSV_MAX_COLS: nat := 256

  method CountColumns(b: string) returns (ncols: nat)
    ensures ncols == Delims(b, 0, false) + 1
  {
    ncols := 1;
    var p: nat := 0;
    var inQuote := false;
    while p < |b| && (inQuote || (b[p] != '\n' && b[p] != '\r'))
      invariant p <= |b| && ncols + Delims(b, p, inQuote) == Delims(b, 0, false) + 1
    {
      if b[p] == QUOTE { inQuote := !inQuote; }
      else if !inQuote && b[p] == DELIM { ncols := ncols + 1; }
      p := p + 1;
    }
  }

  lemma HeaderSnoc(b: string, p: nat, n: nat, names: seq<string>, rest: nat)
    requires p <= |b| && rest > 0
    ensures var f := ScanField(b, p);
            names + HeaderFields(b, p, rest).0 == (names + [f.0]) + HeaderFields(b, f.1, rest - 1).0
            && HeaderFields(b, p, rest).1 == HeaderFields(b, f.1, rest - 1).1
  {
  }

  method ReadHeader(b: string, ncols: nat) returns (names: seq<string>, data: nat)
    ensures data <= |b| && names == HeaderFields(b, 0, ncols).0 && data == PastLine(b, HeaderFields(b, 0, ncols).1)
  {
    hide ScanField;
    names := [];
    var p: nat := 0;
    var c: nat := 0;
    while c < ncols
      invariant c <= ncols && p <= |b|
      invariant names + HeaderFields(b, p, ncols - c).0 == HeaderFields(b, 0, ncols).0
      invariant HeaderFields(b, p, ncols - c).1 == HeaderFields(b, 0, ncols).1
    {
      HeaderSnoc(b, p, ncols, names, ncols - c);
      var name, next := Scan(b, p);
      names := names + [name];
      p := next;
      c := c + 1;
    }
    if p < |b| && b[p] == '\r' { p := p + 1; }
    if p < |b| && b[p] == '\n' { p := p + 1; }
    data := p;
  }

  /** The null bits of a column are those of its empty cells, and it is recorded to have
      nulls if it has any. */
  ghost predicate NullsShown(cols: Columns, rows: nat, c: nat)
    requires cols.Shaped(rows, cols.cells.Length1) && c < cols.cells.Length1 && 0 < cols.hadNull.Length0
    reads cols.cells, cols.nulls, cols.hadNull
  {
    && (forall r: nat :: r < rows ==> (cols.Marked(r, c) <==> cols.cells[r, c].None?))
    && (cols.hadNull[0, c] <==> exists r: nat :: r < rows && cols.cells[r, c].None?)
  }

  /** ray_read_csv_opts for string columns, read serially: names, rows and the cells. */
  method Read(b: string) returns (ok: bool, names: seq<string>, rows: nat, cols: Columns)
    ensures ok <==> b != "" && Delims(b, 0, false) + 1 <= CSV_MAX_COLS
    ensures ok ==> names == ReadFile(b).0 && rows == |ReadFile(b).1| && cols.Shaped(rows, |names|)
    ensures ok ==> forall r, c :: 0 <= r < rows && 0 <= c < |names| ==>
              |ReadFile(b).1[r]| == |names| && cols.cells[r, c] == ReadFile(b).1[r][c]
    ensures ok ==> cols.hadNull.Length0 == 1 && forall c: nat :: c < |names| ==> NullsShown(cols, rows, c)
    ensures !ok ==> names == [] && rows == 0
  {
    hide RowCells, RowOffsets, NullIn, NullsShown;
    if |b| <= 0 {
      cols := new Columns(0, 0, 1);
      return false, [], 0, cols;
    }
    var n := CountColumns(b);
    if n > CSV_MAX_COLS {
      cols := new Columns(0, 0, 1);
      return false, [], 0, cols;
    }
    var data: nat;
    names, data := ReadHeader(b, n);
    var starts := BuildRowOffsets(b, data);
    OffsetsInside(b, data);
    cols := new Columns(|starts|, n, 1);
    ParseSerial(cols, b, starts, n);
    ok, rows := true, |starts|;
    assert ReadFile(b) == (names, RowsRead(b, starts, n));
    forall r, c | 0 <= r < rows && 0 <= c < n
      ensures |ReadFile(b).1[r]| == n && cols.cells[r, c] == ReadFile(b).1[r][c]
    {
      assert ReadFile(b).1[r] == RowSpec(b, starts, n, r);
      assert cols.Filled(r, RowSpec(b, starts, n, r), n);
    }
    forall c: nat | c < n
      ensures NullsShown(cols, rows, c)
    {
      NullCells(cols, b, starts, n, c);
    }
  }

  lemma NullCells(cols: Columns, b: string, starts: seq<nat>, n: nat, c: nat)
    requires GoodStarts(b, starts) && cols.Shaped(|starts|, n) && AllFilled(cols, b, starts, n) && c < n
    requires 0 < cols.hadNull.Length0 && cols.hadNull[0, c] == NullIn(b, starts, n, c, 0, |starts|)
    ensures NullsShown(cols, |starts|, c)
  {
    hide RowSpec;
    forall r: nat | r < |starts|
      ensures cols.cells[r, c] == RowSpec(b, starts, n, r)[c] && (cols.Marked(r, c) <==> cols.cells[r, c].None?)
    {
      assert cols.Filled(r, RowSpec(b, starts, n, r), n);
    }
    if NullIn(b, starts, n, c, 0, |starts|) {
      var r: nat :| r < |starts| && RowSpec(b, starts, n, r)[c].None?;
      assert cols.cells[r, c].None?;
    }
  }

  /** A table written and read again: the cells that come back are those that went out,
      up to empty strings and a carriage return at the end of a row. */
  method WriteThenRead(names: seq<string>, rows: seq<seq<Cell>>) returns (back: Columns)
    requires 0 < |names| <= CSV_MAX_COLS && forall i :: 0 <= i < |rows| ==> |rows[i]| == |names|
    ensures back.Shaped(|rows|, |names|)
    ensures forall r, c :: 0 <= r < |rows| && 0 <= c < |names| ==>
              back.cells[r, c] == Kept(rows[r][c], c == |names| - 1)
  {
    hide ReadFile, FileText;
    var w := new Writer();
    w.WriteFile(names, rows);
    assert w.out == FileText(names, rows);
    FileRoundTrip(names, rows);
    FileNotEmpty(names, rows);
    var ok, found, n, cols := Read(w.out);
    back := cols;
    assert forall r :: 0 <= r < |rows| ==> KeptRows(rows)[r] == KeptRow(rows[r]);
  }

  lemma FileNotEmpty(names: seq<string>, rows: seq<seq<Cell>>)
    requires names != [] && forall i :: 0 <= i < |rows| ==> rows[i] != []
    ensures FileText(names, rows) != ""
  {
    hide RowText;
    RowStep(HeaderRow(names));
  }
}
