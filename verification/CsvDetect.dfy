/** The delimiter the CSV reader picks when it is given none, from the first line alone, and
    when that is the one the writer used. */
module CsvDetect {
  import opened Options
  import opened CsvText
  import opened CsvFile

  /** The bytes before the first newline, quoted or not. */
  function FirstLine(b: string): string { if b == "" || b[0] == '\n' then "" else [b[0]] + FirstLine(b[1..]) }

  ghost predicate PicksTab(line: string) { multiset(line)['\t'] > multiset(line)[','] }

  lemma LineCons(c: char, s: string)
    ensures FirstLine([c] + s) == if c == '\n' then "" else [c] + FirstLine(s)
  {
    assert ([c] + s)[1..] == s;
  }

  lemma LineNext(b: string, p: nat)
    requires p < |b| && b[p] != '\n'
    ensures b[..p] + FirstLine(b[p..]) == b[..p + 1] + FirstLine(b[p + 1..])
  {
    assert b[p..] == [b[p]] + b[p + 1..] && b[..p + 1] == b[..p] + [b[p]];
    LineCons(b[p], b[p + 1..]);
  }

  lemma LineStops(b: string, p: nat)
    requires p <= |b| && (p == |b| || b[p] == '\n')
    ensures b[..p] + FirstLine(b[p..]) == b[..p]
  {
  }

  lemma CountNext(b: string, p: nat, c: char)
    requires p < |b|
    ensures multiset(b[..p + 1])[c] == multiset(b[..p])[c] + if b[p] == c then 1 else 0
  {
    assert b[..p + 1] == b[..p] + [b[p]];
  }

  /** Commas and tabs of the first line counted. */
  method DetectDelimiter(b: string) returns (d: char)
    ensures d == if PicksTab(FirstLine(b)) then '\t' else DELIM
  {
    hide FirstLine;
    var commas, tabs, p := 0, 0, 0;
    assert b[..0] == "" && b[0..] == b;
    while p < |b| && b[p] != '\n'
      invariant p <= |b| && FirstLine(b) == b[..p] + FirstLine(b[p..])
      invariant commas == multiset(b[..p])[','] && tabs == multiset(b[..p])['\t']
    {
      LineNext(b, p);
      CountNext(b, p, ',');
      CountNext(b, p, '\t');
      if b[p] == ',' { commas := commas + 1; }
      if b[p] == '\t' { tabs := tabs + 1; }
      p := p + 1;
    }
    LineStops(b, p);
    d := if tabs > commas then '\t' else ',';
  }

  // ----- quotes do not matter -----

  /** A text without its quotes. */
  function Bare(s: string): string {
    if s == "" then "" else if s[0] == QUOTE then Bare(s[1..]) else [s[0]] + Bare(s[1..])
  }

  lemma BareCons(c: char, s: string)
    ensures Bare([c] + s) == if c == QUOTE then Bare(s) else [c] + Bare(s)
  {
    assert ([c] + s)[1..] == s;
  }

  lemma BareOne(c: char)
    ensures Bare([c]) == if c == QUOTE then "" else [c]
  {
    assert [c][1..] == "";
  }

  lemma {:induction false} BareBoth(s: string, t: string)
    ensures Bare(s + t) == Bare(s) + Bare(t)
  {
    if s == "" {
      assert s + t == t;
    } else {
      hide Bare;
      BareBoth(s[1..], t);
      BareCons(s[0], s[1..]);
      BareCons(s[0], s[1..] + t);
      assert s == [s[0]] + s[1..] && s + t == [s[0]] + (s[1..] + t);
    }
  }

  lemma {:induction false} BareCounts(s: string, c: char)
    requires c != QUOTE
    ensures multiset(Bare(s))[c] == multiset(s)[c]
  {
    if s != "" {
      BareCounts(s[1..], c);
      assert s == [s[0]] + s[1..];
    }
  }

  lemma {:induction false} BareLine(s: string)
    ensures FirstLine(Bare(s)) == Bare(FirstLine(s))
  {
    if s != "" {
      hide Bare, FirstLine;
      var c, t := s[0], s[1..];
      assert s == [c] + t;
      BareLine(t);
      BareCons(c, t);
      LineCons(c, t);
      LineCons(c, Bare(t));
      BareCons(c, FirstLine(t));
      NothingBare();
    }
  }

  lemma NothingBare()
    ensures Bare("") == ""
  {
  }

  lemma {:induction false} BareEscape(s: string)
    ensures Bare(Escape(s)) == Bare(s)
  {
    if s != "" {
      BareEscape(s[1..]);
      BareBoth(if s[0] == QUOTE then [QUOTE, QUOTE] else [s[0]], Escape(s[1..]));
      BareOne(s[0]);
      BareCons(QUOTE, [QUOTE]);
      assert [QUOTE] + [QUOTE] == [QUOTE, QUOTE];
    }
  }

  lemma BareWritten(s: string)
    ensures Bare(Written(s)) == Bare(s)
  {
    BareEscape(s);
    BareBoth([QUOTE], Escape(s));
    BareBoth([QUOTE] + Escape(s), [QUOTE]);
    BareOne(QUOTE);
  }

  lemma BareSame(s: string, t: string)
    requires Bare(s) == Bare(t)
    ensures PicksTab(FirstLine(s)) <==> PicksTab(FirstLine(t))
  {
    BareLine(s);
    BareLine(t);
    BareCounts(FirstLine(s), ',');
    BareCounts(FirstLine(s), '\t');
    BareCounts(FirstLine(t), ',');
    BareCounts(FirstLine(t), '\t');
  }

  // ----- written files -----

  /** The names with commas between them, and a newline. */
  function Joined(names: seq<string>): string
    requires names != []
  {
    if |names| == 1 then names[0] + ['\n'] else names[0] + [DELIM] + Joined(names[1..])
  }

  lemma {:induction false} BareHeader(names: seq<string>)
    requires names != []
    ensures Bare(RowText(HeaderRow(names))) == Bare(Joined(names))
  {
    hide Escape, NeedsQuote, Bare;
    var name := names[0];
    BareWritten(name);
    if |names| == 1 {
      BareBoth(Written(name), ['\n']);
      BareBoth(name, ['\n']);
    } else {
      BareHeader(names[1..]);
      assert HeaderRow(names)[1..] == HeaderRow(names[1..]);
      BareBoth(Written(name), [DELIM]);
      BareBoth(name, [DELIM]);
      BareBoth(Written(name) + [DELIM], RowText(HeaderRow(names[1..])));
      BareBoth(name + [DELIM], Joined(names[1..]));
    }
  }

  lemma {:induction false} LineInside(s: string, t: string)
    requires '\n' in s
    ensures FirstLine(s + t) == FirstLine(s)
  {
    if s[0] != '\n' {
      LineInside(s[1..], t);
      assert (s + t)[1..] == s[1..] + t;
    }
  }

  lemma {:induction false} RowEnds(row: seq<Cell>)
    requires row != []
    ensures '\n' in RowText(row)
  {
    if |row| > 1 { RowEnds(row[1..]); }
  }

  /** The reader picks the writer's delimiter if and only if the first line of the names
      joined by commas has no more tabs than commas. */
  lemma DetectedExactly(names: seq<string>, rows: seq<seq<Cell>>)
    requires names != [] && forall i :: 0 <= i < |rows| ==> |rows[i]| == |names|
    ensures PicksTab(FirstLine(FileText(names, rows))) <==> PicksTab(FirstLine(Joined(names)))
  {
    hide PicksTab, Bare, FirstLine, RowText, Joined;
    var header := RowText(HeaderRow(names));
    RowEnds(HeaderRow(names));
    LineInside(header, TableText(rows));
    BareHeader(names);
    BareSame(header, Joined(names));
  }

  /** Names without tabs are enough. */
  lemma {:induction false} NoTabs(names: seq<string>)
    requires names != [] && forall i :: 0 <= i < |names| ==> '\t' !in names[i]
    ensures '\t' !in Joined(names) && !PicksTab(FirstLine(Joined(names)))
  {
    if |names| > 1 { NoTabs(names[1..]); }
    LineIn(Joined(names), '\t');
  }

  lemma {:induction false} LineIn(s: string, c: char)
    requires c !in s
    ensures c !in FirstLine(s)
  {
    if s != "" && s[0] != '\n' { LineIn(s[1..], c); }
  }

  /** A tab in the name of a single column is enough to mislead it. */
  lemma TabInName()
    ensures PicksTab(FirstLine(Joined(["a\tb"])))
  {
    hide FirstLine;
    assert Joined(["a\tb"]) == ['a'] + (['\t'] + (['b'] + (['\n'] + "")));
    LineCons('a', ['\t'] + (['b'] + (['\n'] + "")));
    LineCons('\t', ['b'] + (['\n'] + ""));
    LineCons('b', ['\n'] + "");
    LineCons('\n', "");
    assert ['a'] + (['\t'] + (['b'] + "")) == ['a', '\t', 'b'];
  }

  /** A table written, and read again without naming the delimiter: it comes back if the
      delimiter picked is the writer's. */
  method WriteThenDetect(names: seq<string>, rows: seq<seq<Cell>>) returns (d: char, back: Columns)
    requires 0 < |names| <= CSV_MAX_COLS && forall i :: 0 <= i < |rows| ==> |rows[i]| == |names|
    ensures d == DELIM <==> !PicksTab(FirstLine(Joined(names)))
    ensures d == DELIM ==>
              back.Shaped(|rows|, |names|) &&
              forall r, c :: 0 <= r < |rows| && 0 <= c < |names| ==>
                back.cells[r, c] == Kept(rows[r][c], c == |names| - 1)
  {
    hide FileText, PicksTab, FirstLine, Joined;
    DetectedExactly(names, rows);
    d := DetectDelimiter(FileText(names, rows));
    if d == DELIM { back := WriteThenRead(names, rows); } else { back := new Columns(0, 0, 1); }
  }
}
