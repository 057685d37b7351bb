/** Date, time and timestamp literals of the language: what is printed, and what the
    number branch of the parser makes of it. */
module TimeLiteral {
  import opened Options
  import opened CInts
  import opened Calendar
  import opened CalTable
  import opened TimeText

  /** What the parser finds at the start of its text and how far it gets: a literal, an
      error, or something for its other branches. A month past the table's end reads
      beyond the table. */
  datatype Literal =
    | ADate(days: int, next: nat)
    | AStamp(ns: int, next: nat)
    | ATime(ms: int, next: nat)
    | Broken | Other | PastTable

  function DigitRun(s: string, i: nat): (n: nat)
    ensures i + n <= |s| || n == 0
    ensures forall j :: i <= j < i + n ==> IsDigit(At(s, j))
    ensures !IsDigit(At(s, i + n))
    decreases |s| - i
  {
    if IsDigit(At(s, i)) then DigitRun(s, i + 1) + 1 else 0
  }

  predicate TwoDigits(s: string, i: nat) { IsDigit(At(s, i)) && IsDigit(At(s, i + 1)) }

  /** Fractional digits as nanoseconds: the first nine, padded with zeros. */
  function Nanos(s: string, i: nat, flen: nat): int
    requires i + flen <= |s|
  {
    if flen >= 9 then Number(s[i..i + 9], 0) else Number(s[i..i + flen], 0) * Pow10(9 - flen)
  }

  /** The clock part of a timestamp, from behind its separator. */
  function ReadClock(s: string, p: nat, days: int): Literal {
    if !TwoDigits(s, p) || At(s, p + 2) != ':' || At(s, p + 5) != ':' || At(s, p + 8) != '.' then Broken
    else
      var flen := DigitRun(s, p + 9);
      var nanos := if flen == 0 then 0 else Nanos(s, p + 9, flen);
      AStamp(days * NS_PER_DAY + ((TwoAt(s, p) * 3600 + TwoAt(s, p + 3) * 60 + TwoAt(s, p + 6)) * NS_PER_SEC + nanos),
             p + 9 + flen)
  }

  /** try_parse_time, from the sign on. */
  function ReadTime(s: string): Option<(int, nat)> {
    var p := if At(s, 0) == '-' then 1 else 0;
    var sign := if p == 1 then -1 else 1;
    if !TwoDigits(s, p) || At(s, p + 2) != ':' || !TwoDigits(s, p + 3) || At(s, p + 5) != ':' || !TwoDigits(s, p + 6)
      then None
    else
      var whole := (TwoAt(s, p) * 3600 + TwoAt(s, p + 3) * 60 + TwoAt(s, p + 6)) * 1000;
      if At(s, p + 8) != '.' then Some((sign * whole, p + 8))
      else if !IsDigit(At(s, p + 9)) then None
      else
        var n := if !IsDigit(At(s, p + 10)) then 1 else if !IsDigit(At(s, p + 11)) then 2 else 3;
        Some((sign * (whole + Number(s[p + 9..p + 9 + n], 0)), p + 9 + n))
  }

  /** parse_number, as far as dates and times go. */
  function ReadLiteral(s: string): Literal {
    var neg := At(s, 0) == '-';
    var p := if neg then 1 else 0;
    if At(s, p) == '0' && (At(s, p + 1) == 'x' || (!neg && At(s, p + 1) == 'N')) then Other
    else
      var n := DigitRun(s, p);
      var q := p + n;
      if n == 4 && !neg && At(s, q) == '.' && TwoDigits(s, q + 1) && At(s, q + 3) == '.' then
        if !TwoDigits(s, q + 4) then Other
        else if TwoAt(s, q + 1) > 13 then PastTable
        else
          var days := YmdToDate(Number(s[p..q], 0), TwoAt(s, q + 1), TwoAt(s, q + 4));
          if At(s, q + 6) == 'D' then ReadClock(s, q + 7, days) else ADate(days, q + 6)
      else if n == 2 && At(s, q) == ':' then
        match ReadTime(s)
        case Some(r) => ATime(r.0, r.1)
        case None => Other
      else Other
  }

  /** Four digits, two and two, with dots between them. */
  predicate DateShape(s: string) {
    && DigitRun(s, 0) == 4 && At(s, 4) == '.' && TwoDigits(s, 5) && At(s, 7) == '.' && TwoDigits(s, 8)
  }

  /** The parser reads beyond the table of months exactly for dates with a month above 13. */
  lemma PastTableExactly(s: string)
    ensures ReadLiteral(s) == PastTable <==> DateShape(s) && TwoAt(s, 5) > 13
  {
    hide DigitRun, YmdToDate, ReadTime, Nanos;
    FirstDigit(s);
  }

  lemma FirstDigit(s: string)
    ensures DigitRun(s, 0) >= 1 ==> At(s, 0) != '-'
    ensures DigitRun(s, 0) >= 2 ==> IsDigit(At(s, 1))
  {
  }

  lemma MonthFourteen()
    ensures ReadLiteral("2024.14.01") == PastTable
  {
    RunIs("2024.14.01", 0, 4);
    PastTableExactly("2024.14.01");
  }

  // ----- the parser itself -----

  method SkipDigits(s: string, i: nat) returns (pos: nat)
    ensures pos == i + DigitRun(s, i)
  {
    pos := i;
    while IsDigit(At(s, pos))
      invariant i <= pos && pos + DigitRun(s, pos) == i + DigitRun(s, i)
      decreases |s| - pos
    {
      pos := pos + 1;
    }
  }

  method ReadNanos(s: string, fstart: nat, flen: nat) returns (nanos: int)
    requires fstart + flen <= |s|
    ensures nanos == Nanos(s, fstart, flen)
  {
    nanos := 0;
    var i := 0;
    ghost var k := if flen < 9 then flen else 9;
    while i < flen && i < 9
      invariant 0 <= i <= k && nanos == Number(s[fstart..fstart + i], 0)
    {
      NumberSnoc(s[fstart..fstart + i], s[fstart + i], 0);
      assert s[fstart..fstart + i] + [s[fstart + i]] == s[fstart..fstart + i + 1];
      nanos := nanos * 10 + Val(s[fstart + i]);
      i := i + 1;
    }
    ghost var digits := nanos;
    i := flen;
    assert digits * Pow10(0) == digits;
    while i < 9
      invariant flen <= i && (flen <= 9 ==> i <= 9)
                && nanos == digits * (if i < flen || flen >= 9 then 1 else Pow10(i - flen))
    {
      PowStep(digits, i - flen);
      nanos := nanos * 10;
      i := i + 1;
    }
  }

  lemma PowStep(a: int, k: nat)
    ensures a * Pow10(k) * 10 == a * Pow10(k + 1)
  {
  }

  /** The date and timestamp branch of parse_number, and the time literals beside it. */
  method ParseNumber(s: string) returns (r: Literal)
    ensures r == ReadLiteral(s)
  {
    hide DigitRun, Nanos, YmdToDate, ReadTime;
    var pos := 0;
    var neg := false;
    if At(s, 0) == '-' { neg, pos := true, 1; }
    if At(s, pos) == '0' && At(s, pos + 1) == 'x' { return Other; }
    if !neg && At(s, pos) == '0' && At(s, pos + 1) == 'N' { return Other; }
    var dstart := pos;
    pos := SkipDigits(s, pos);
    var ndigits := pos - dstart;
    if ndigits == 4 && !neg && At(s, pos) == '.' && TwoDigits(s, pos + 1) && At(s, pos + 3) == '.' {
      var year := Number(s[dstart..pos], 0);
      pos := pos + 1;
      var month := TwoAt(s, pos);
      pos := pos + 3;
      if !TwoDigits(s, pos) { return Other; }
      var day := TwoAt(s, pos);
      pos := pos + 2;
      if month > 13 { return PastTable; }
      var days := YmdToDate(year, month, day);
      if At(s, pos) == 'D' {
        r := ParseClock(s, pos + 1, days);
        return;
      }
      return ADate(days, pos);
    }
    if ndigits == 2 && At(s, pos) == ':' {
      var t := ReadTime(s);
      if t.Some? { return ATime(t.value.0, t.value.1); }
    }
    r := Other;
  }

  method ParseClock(s: string, start: nat, days: int) returns (r: Literal)
    ensures r == ReadClock(s, start, days)
  {
    var pos := start;
    if !TwoDigits(s, pos) { return Broken; }
    var hh := TwoAt(s, pos);
    pos := pos + 2;
    if At(s, pos) != ':' { return Broken; }
    pos := pos + 1;
    var mi := TwoAt(s, pos);
    pos := pos + 2;
    if At(s, pos) != ':' { return Broken; }
    pos := pos + 1;
    var ss := TwoAt(s, pos);
    pos := pos + 2;
    if At(s, pos) != '.' { return Broken; }
    pos := pos + 1;
    var fstart := pos;
    pos := SkipDigits(s, pos);
    var flen := pos - fstart;
    var nanos := 0;
    if flen > 0 { nanos := ReadNanos(s, fstart, flen); }
    r := AStamp(days * NS_PER_DAY + ((hh * 3600 + mi * 60 + ss) * NS_PER_SEC + nanos), pos);
  }

  // ----- printing -----

  function FormatDate(days: int): string
    requires DateOf(days).y >= 0
  {
    var t := DateOf(days);
    CivilOfDate(days);
    Padded(t.y, 4) + "." + Padded(t.m, 2) + "." + Padded(t.d, 2)
  }

  function FormatClock(span: int): string
    requires 0 <= span < NS_PER_DAY
  {
    var c := ClockOf(span);
    ClockParts(span);
    Padded(c.h, 2) + ":" + Padded(c.mi, 2) + ":" + Padded(c.s, 2) + "." + Padded(c.nanos, 9)
  }

  function FormatTimestamp(ns: int): string
    requires DateOf(DayOf(ns)).y >= 0
  {
    DaySpan(ns);
    FormatDate(DayOf(ns)) + "D" + FormatClock(SpanOf(ns))
  }

  /** Dates of four-digit years are decoded without a wrap. */
  lemma FourDigitDecodes(days: int, approx: real)
    requires 1 <= DateOf(days).y <= 9999 && Near(approx, Wrap32(days + 730119))
    ensures Fits32(days) && Decodable(days, approx)
  {
    hide DateOf, CivilToDays, YearsByDays, Rounded, Near, Leap, FloorYears;
    var t := DateOf(days);
    CivilOfDate(days);
    FromYearOne(days);
    YearOfOffset(t);
    ManyYears(t.y);
    ManyYears(t.y - 1);
    RoundedYear(days + 730119, approx, t.y - 1);
    PositiveYears(t.y);
    PositiveYears(t.y - 1);
  }

  lemma ManyYears(y: int)
    requires 0 <= y <= 9999
    ensures 0 <= FloorYears(y) <= 366 * y
  {
  }

  /** fmt_date, with the floating-point quotient date_to_ymd works from. */
  method PrintDate(days: int, approx: real) returns (s: string)
    requires 1 <= DateOf(days).y <= 9999 && Near(approx, Wrap32(days + 730119))
    ensures s == FormatDate(days)
  {
    hide DateOf, Near, Decodable, Padded;
    FourDigitDecodes(days, approx);
    CivilOfDate(days);
    var y, m, d := DateToYmd(days, approx);
    s := Padded(y, 4) + "." + Padded(m, 2) + "." + Padded(d, 2);
  }

  /** fmt_timestamp, by ts_to_parts. */
  method PrintTimestamp(ns: int, approx: real) returns (s: string)
    requires INT64_MIN <= ns <= INT64_MAX && Near(approx, Wrap32(DayOf(ns) + 730119))
    ensures DateOf(DayOf(ns)).y >= 0 && s == FormatTimestamp(ns)
  {
    hide DateOf, Near, Padded, FormatDate, Wrap32;
    DayRange(ns);
    FourDigitYears(DayOf(ns));
    var days := Trunc(ns, NS_PER_DAY);
    var span := ns - days * NS_PER_DAY;
    if span < 0 {
      days := days - 1;
      span := span + NS_PER_DAY;
    }
    DaySpan(ns);
    ClockParts(span);
    var date := PrintDate(days, approx);
    var secs := span / NS_PER_SEC;
    var rem := secs % 3600;
    s := date + "D" + (Padded(secs / 3600, 2) + ":" + Padded(rem / 60, 2) + ":" + Padded(rem % 60, 2) + "."
                       + Padded(span % NS_PER_SEC, 9));
    assert secs % 3600 % 60 == secs % 60;
  }

  function Magnitude(v: int): nat { if v < 0 then -v else v }

  /** What %0wd prints. */
  function PrintedInt(n: int, w: nat): string {
    if n >= 0 then Padded(n, w) else "-" + Padded(-n, if w > 0 then w - 1 else 0)
  }

  /** fmt_time: the magnitude is a 32-bit value too, so that of the least time is negative. */
  function FormatTime(v: int): string {
    var val := Wrap32(Magnitude(v));
    var secs := Trunc(val, 1000);
    (if v < 0 then "-" else "")
    + PrintedInt(Trunc(secs, 3600), 2) + ":"
    + PrintedInt(Trunc(Rem(secs, 3600), 60), 2) + ":" + PrintedInt(Rem(secs, 60), 2)
    + "." + PrintedInt(Rem(val, 1000), 3)
  }

  lemma RemIs(a: nat, b: nat)
    requires b > 0
    ensures Rem(a, b) == a % b && Trunc(a, b) == a / b
  {
  }

  lemma UsualTime(v: int)
    requires INT32_MIN < v <= INT32_MAX
    ensures var secs := Magnitude(v) / 1000;
            FormatTime(v) == (if v < 0 then "-" else "") + Padded(secs / 3600, 2) + ":" + Padded(secs % 3600 / 60, 2)
              + ":"
                             + Padded(secs % 60, 2) + "." + Padded(Magnitude(v) % 1000, 3)
  {
    hide Padded, Rem, Trunc;
    var m := Magnitude(v);
    RemIs(m, 1000);
    RemIs(m / 1000, 3600);
    RemIs(m / 1000, 60);
    RemIs(m / 1000 % 3600, 60);
  }

  /** The least time prints with two signs. */
  lemma LeastTime()
    ensures FormatTime(INT32_MIN) == "--596:-31:-23.-648"
  {
    hide PrintedInt, Rem, Trunc;
    LeastParts();
    hide Rem, Trunc;
    LeastNumbers();
  }

  lemma LeastParts()
    ensures Wrap32(Magnitude(INT32_MIN)) == INT32_MIN && Trunc(INT32_MIN, 1000) == -2147483
            && Rem(INT32_MIN, 1000) == -648
    ensures Trunc(-2147483, 3600) == -596 && Rem(-2147483, 3600) == -1883 && Trunc(-1883, 60) == -31
    ensures Rem(-2147483, 60) == -23
  {
  }

  lemma LeastNumbers()
    ensures PrintedInt(-596, 2) == "-596" && PrintedInt(-31, 2) == "-31" && PrintedInt(-23, 2) == "-23"
    ensures PrintedInt(-648, 3) == "-648"
  {
    LeastDecimals();
    hide Decimal;
  }

  lemma LeastDecimals()
    ensures Decimal(596) == "596" && Decimal(31) == "31" && Decimal(23) == "23" && Decimal(648) == "648"
  {
    assert Decimal(59) == "59" && Decimal(64) == "64";
  }

  // ----- what is printed is read back -----

  lemma DateText(days: int)
    requires 0 <= DateOf(days).y <= 9999
    ensures var t := DateOf(days);
            ValidDate(t) && FormatDate(days) ==
            [DigitChar(t.y / 1000), DigitChar(t.y / 100 % 10), DigitChar(t.y / 10 % 10), DigitChar(t.y % 10), '.',
             DigitChar(t.m / 10), DigitChar(t.m % 10), '.', DigitChar(t.d / 10), DigitChar(t.d % 10)]
  {
    hide DateOf, Padded;
    CivilOfDate(days);
    var t := DateOf(days);
    Fixed4(t.y);
    Fixed2(t.m);
    Fixed2(t.d);
  }

  lemma ClockText(c: Clock)
    requires 0 <= c.h <= 99 && 0 <= c.mi <= 59 && 0 <= c.s <= 59 && 0 <= c.nanos < NS_PER_SEC
    ensures Padded(c.h, 2) + ":" + Padded(c.mi, 2) + ":" + Padded(c.s, 2) + "." + Padded(c.nanos, 9)
         == [DigitChar(c.h / 10), DigitChar(c.h % 10), ':', DigitChar(c.mi / 10), DigitChar(c.mi % 10), ':',
             DigitChar(c.s / 10), DigitChar(c.s % 10), '.'] + Fixed(c.nanos, 9)
  {
    hide Padded, Fixed;
    Fixed2(c.h);
    Fixed2(c.mi);
    Fixed2(c.s);
    NanoWidth();
    PaddedFixed(c.nanos, 9);
  }

  lemma NanoWidth()
    ensures Pow10(9) == NS_PER_SEC && Pow10(3) == 1000
  {
    assert Pow10(3) == 1000 by { assert Pow10(1) == 10; }
    assert Pow10(5) == 100 * Pow10(3) by { assert Pow10(4) == 10 * Pow10(3); }
    assert Pow10(7) == 100 * Pow10(5) by { assert Pow10(6) == 10 * Pow10(5); }
    assert Pow10(9) == 100 * Pow10(7) by { assert Pow10(8) == 10 * Pow10(7); }
  }

  lemma {:induction false} RunIs(s: string, i: nat, n: nat)
    requires forall j :: i <= j < i + n ==> IsDigit(At(s, j))
    requires !IsDigit(At(s, i + n))
    ensures DigitRun(s, i) == n
    decreases n
  {
    if n > 0 { RunIs(s, i + 1, n - 1); }
  }

  lemma TwoBack(n: int)
    requires 0 <= n < 100
    ensures Val(DigitChar(n / 10)) * 10 + Val(DigitChar(n % 10)) == n
  {
  }

  /** A clock text behind a separator, read in any surroundings. */
  lemma ClockRead(s: string, p: nat, c: Clock, days: int, rest: string)
    requires 0 <= c.h <= 23 && 0 <= c.mi <= 59 && 0 <= c.s <= 59 && 0 <= c.nanos < NS_PER_SEC
    requires p <= |s| && !IsDigit(At(rest, 0))
    requires s[p..] == [DigitChar(c.h / 10), DigitChar(c.h % 10), ':', DigitChar(c.mi / 10), DigitChar(c.mi % 10), ':',
                        DigitChar(c.s / 10), DigitChar(c.s % 10), '.'] + Fixed(c.nanos, 9) + rest
    ensures ReadClock(s, p, days)
         == AStamp(days * NS_PER_DAY + ((c.h * 3600 + c.mi * 60 + c.s) * NS_PER_SEC + c.nanos), p + 18)
  {
    hide Fixed, ReadClock, Pow10;
    NanoWidth();
    PowZero();
    StampFraction(s, p, c, c.nanos, 9, days, rest);
  }

  /** The day numbers of 64-bit nanosecond counts have years of four digits. */
  lemma FourDigitYears(days: int)
    requires -106752 <= days <= 106751
    ensures 1 <= DateOf(days).y <= 9999
  {
    hide DateOf, CivilToDays, MonthStart;
    FromYearOne(days);
    CivilOfDate(days);
    var t := DateOf(days);
    CivilFlat(t);
    if t.y >= 10000 { assert FloorYears(if t.m <= 2 then t.y - 1 else t.y) >= 3000000; MonthStarts(t.m); }
  }

  lemma MonthStarts(m: int)
    requires 1 <= m <= 12
    ensures MonthStart(Shifted(m)) >= 0
  {
  }

  lemma DayRange(ns: int)
    requires INT64_MIN <= ns <= INT64_MAX
    ensures -106752 <= DayOf(ns) <= 106751
    ensures INT64_MIN <= DayOf(ns) * NS_PER_DAY <==> DayOf(ns) >= -106751
  {
  }

  /** A timestamp printed and parsed again is the same, whatever follows it other than
      a digit. The parser's product of days and nanoseconds stays within 64 bits exactly
      from day -106751 on. */
  lemma TimestampRoundTrip(ns: int, rest: string)
    requires INT64_MIN <= ns <= INT64_MAX && !IsDigit(At(rest, 0))
    ensures DateOf(DayOf(ns)).y >= 0 && ReadLiteral(FormatTimestamp(ns) + rest) == AStamp(ns, 29)
    ensures INT64_MIN <= DayOf(ns) * NS_PER_DAY <==> DayOf(ns) >= -106751
  {
    hide DateOf, Padded, Fixed, ReadClock, YmdToDate, DayOf, DigitRun, ClockOf, ReadLiteral, FormatDate;
    DayRange(ns);
    var days := DayOf(ns);
    FourDigitYears(days);
    DaySpan(ns);
    ClockParts(SpanOf(ns));
    var c := ClockOf(SpanOf(ns));
    DateText(days);
    ClockText(c);
    var t := DateOf(days);
    CivilOfDate(days);
    YmdIsCivil(t);
    var clock := [DigitChar(c.h / 10), DigitChar(c.h % 10), ':', DigitChar(c.mi / 10), DigitChar(c.mi % 10), ':',
                  DigitChar(c.s / 10), DigitChar(c.s % 10), '.'] + Fixed(c.nanos, 9);
    var s := FormatTimestamp(ns) + rest;
    assert FormatClock(SpanOf(ns)) == clock;
    Rejoin(FormatDate(days), 'D', clock, rest);
    ClockRead(s, 11, c, days, rest);
    DateRead(s, days, ['D'] + clock + rest);
  }

  lemma Rejoin(date: string, sep: char, clock: string, rest: string)
    requires |date| == 10
    ensures var s := date + [sep] + clock + rest;
            s == date + ([sep] + clock + rest) && s[11..] == clock + rest
  {
  }

  /** The date part of a literal, read in any surroundings. */
  lemma DateRead(s: string, days: int, rest: string)
    requires 1 <= DateOf(days).y <= 9999 && s == FormatDate(days) + rest
    ensures ReadLiteral(s) == if At(rest, 0) == 'D' then ReadClock(s, 11, days) else ADate(days, 10)
  {
    hide DateOf, Padded, YmdToDate, ReadClock, DigitRun, FormatDate;
    DateText(days);
    var t := DateOf(days);
    CivilOfDate(days);
    YmdIsCivil(t);
    var d := FormatDate(days);
    assert forall i: nat :: i < 10 ==> s[i] == d[i];
    RunIs(s, 0, 4);
    TwoBack(t.m);
    TwoBack(t.d);
    FourBack(t.y, s[0..4]);
    assert At(s, 10) == At(rest, 0);
  }

  lemma FourBack(n: int, s: string)
    requires 0 <= n <= 9999
    requires s == [DigitChar(n / 1000), DigitChar(n / 100 % 10), DigitChar(n / 10 % 10), DigitChar(n % 10)]
    ensures Number(s, 0) == n
  {
    assert Pow10(4) == 10000 by { assert Pow10(2) == 100; }
    Fixed4(n);
    PaddedFixed(n, 4);
    NumberFixed(n, 4);
  }

  /** A date printed and parsed again is the same, unless a timestamp goes on from it. */
  lemma DateRoundTrip(days: int, rest: string)
    requires 1 <= DateOf(days).y <= 9999 && At(rest, 0) != 'D'
    ensures ReadLiteral(FormatDate(days) + rest) == ADate(days, 10)
  {
    DateRead(FormatDate(days) + rest, days, rest);
  }

  lemma {:induction false} DecimalDigits(n: nat)
    ensures forall i :: 0 <= i < |Decimal(n)| ==> IsDigit(Decimal(n)[i])
    ensures |Decimal(n)| >= 1 && (n >= 100 ==> |Decimal(n)| >= 3)
  {
    if n >= 10 {
      DecimalDigits(n / 10);
      if n >= 100 { assert |Decimal(n / 10)| >= 2 by { assert n / 10 >= 10; } }
    }
  }

  lemma TimePieces(v: int)
    ensures var m := Magnitude(v); var secs := m / 1000;
            && (secs / 3600 * 3600 + secs % 3600 / 60 * 60 + secs % 60) * 1000 + m % 1000 == m
            && (m < 360_000_000 <==> secs / 3600 < 100)
            && 0 <= secs % 3600 / 60 <= 59 && 0 <= secs % 60 <= 59
  {
    hide Magnitude;
    var m := Magnitude(v);
    var secs := m / 1000;
    var h, r := secs / 3600, secs % 3600;
    assert secs == 3600 * h + r && r == 60 * (r / 60) + r % 60 && m == 1000 * secs + m % 1000;
    QuotientIs(60, 60 * h + r / 60, r % 60);
    assert secs % 60 == r % 60;
  }

  lemma ThreeDigits(n: nat)
    requires n < 1000
    ensures Padded(n, 3) == Fixed(n, 3) && Number(Fixed(n, 3), 0) == n
  {
    NanoWidth();
    PaddedFixed(n, 3);
    NumberFixed(n, 3);
  }

  lemma TimeText2(v: int)
    requires Magnitude(v) < 360_000_000
    ensures INT32_MIN < v <= INT32_MAX
    ensures var secs := Magnitude(v) / 1000;
            var h, mi, s := secs / 3600, secs % 3600 / 60, secs % 60;
            && 0 <= h < 100 && 0 <= mi <= 59 && 0 <= s <= 59
            && FormatTime(v) == (if v < 0 then "-" else "") +
                 [DigitChar(h / 10), DigitChar(h % 10), ':', DigitChar(mi / 10), DigitChar(mi % 10), ':',
                  DigitChar(s / 10), DigitChar(s % 10), '.'] + Fixed(Magnitude(v) % 1000, 3)
  {
    hide Padded, Fixed, FormatTime;
    UsualTime(v);
    TimePieces(v);
    var secs := Magnitude(v) / 1000;
    Fixed2(secs / 3600);
    Fixed2(secs % 3600 / 60);
    Fixed2(secs % 60);
    ThreeDigits(Magnitude(v) % 1000);
  }

  /** A time of less than a hundred hours, with its sign, printed and parsed again. */
  lemma ShortTimeRead(v: int, rest: string)
    requires Magnitude(v) < 360_000_000
    ensures ReadLiteral(FormatTime(v) + rest) == ATime(v, |FormatTime(v)|)
  {
    hide ReadLiteral, Fixed, FormatTime, WrittenTime, Pow10;
    TimeText2(v);
    TimePieces(v);
    NanoWidth();
    var secs, ms := Magnitude(v) / 1000, Magnitude(v) % 1000;
    TimeChars(v < 0, secs / 3600, secs % 3600 / 60, secs % 60, ms, 3);
    assert FormatTime(v) == WrittenTime(v < 0, secs / 3600, secs % 3600 / 60, secs % 60, ms, 3);
    TimeRead(v < 0, secs / 3600, secs % 3600 / 60, secs % 60, ms, 3, rest);
  }

  /** From a hundred hours on the hours take three digits, and are no time any more. */
  lemma LongTimeRead(v: int, rest: string)
    requires Magnitude(v) >= 360_000_000 && INT32_MIN < v <= INT32_MAX
    ensures !ReadLiteral(FormatTime(v) + rest).ATime?
  {
    hide Padded, Decimal, ReadLiteral, DigitRun, FormatTime;
    UsualTime(v);
    TimePieces(v);
    var h := Magnitude(v) / 1000 / 3600;
    DecimalDigits(h);
    PaddedLong(h);
    var s := FormatTime(v) + rest;
    var p: nat := if v < 0 then 1 else 0;
    assert s[p..p + |Decimal(h)|] == Decimal(h);
    forall j: nat | p <= j < p + 3
      ensures IsDigit(At(s, j))
    {
      assert s[j] == s[p..p + |Decimal(h)|][j - p];
    }
    RunAtLeast(s, p, 3);
    if v >= 0 { assert s[0] == Decimal(h)[0]; }
    NoTime(s);
  }

  lemma NoTime(s: string)
    requires DigitRun(s, if At(s, 0) == '-' then 1 else 0) >= 3
    ensures !ReadLiteral(s).ATime?
  {
    hide DigitRun, YmdToDate, Nanos, ReadTime;
  }

  lemma PaddedLong(n: nat)
    requires |Decimal(n)| >= 2
    ensures Padded(n, 2) == Decimal(n)
  {
  }

  lemma {:induction false} RunAtLeast(s: string, i: nat, n: nat)
    requires forall j: nat :: i <= j < i + n ==> IsDigit(At(s, j))
    ensures DigitRun(s, i) >= n
    decreases n
  {
    if n > 0 { RunAtLeast(s, i + 1, n - 1); }
  }

  /** Times survive printing and parsing exactly below a hundred hours either way. */
  lemma TimeRoundTrip(v: int, rest: string)
    requires INT32_MIN <= v <= INT32_MAX
    ensures ReadLiteral(FormatTime(v) + rest) == ATime(v, |FormatTime(v)|) <==> Magnitude(v) < 360_000_000
  {
    hide ReadLiteral, FormatTime;
    if Magnitude(v) < 360_000_000 {
      ShortTimeRead(v, rest);
    } else if v == INT32_MIN {
      LeastTime();
      TwoSigns(FormatTime(v) + rest);
    } else {
      LongTimeRead(v, rest);
    }
  }

  lemma TwoSigns(s: string)
    requires |s| >= 2 && s[0] == '-' && s[1] == '-'
    ensures !ReadLiteral(s).ATime?
  {
    hide YmdToDate, Nanos, ReadTime;
  }

  // ----- every time, date and timestamp literal -----

  /** A time as it may be written: a sign, two digits each, and up to three more behind a
      point. */
  function WrittenTime(neg: bool, h: nat, mi: nat, s: nat, f: nat, k: nat): string {
    (if neg then "-" else "") + Padded(h, 2) + ":" + Padded(mi, 2) + ":" + Padded(s, 2)
    + if k == 0 then "" else "." + Fixed(f, k)
  }

  lemma TimeChars(neg: bool, h: nat, mi: nat, s: nat, f: nat, k: nat)
    requires h < 100 && mi < 100 && s < 100
    ensures WrittenTime(neg, h, mi, s, f, k) ==
            (if neg then "-" else "") +
            [DigitChar(h / 10), DigitChar(h % 10), ':', DigitChar(mi / 10), DigitChar(mi % 10), ':',
             DigitChar(s / 10), DigitChar(s % 10)] + if k == 0 then "" else "." + Fixed(f, k)
  {
    hide Padded, Fixed;
    Fixed2(h);
    Fixed2(mi);
    Fixed2(s);
  }

  ghost predicate ClockAt(t: string, p: nat, h: nat, mi: nat, s: nat)
    requires h < 100 && mi < 100 && s < 100
  {
    && At(t, p) == DigitChar(h / 10) && At(t, p + 1) == DigitChar(h % 10) && At(t, p + 2) == ':'
    && At(t, p + 3) == DigitChar(mi / 10) && At(t, p + 4) == DigitChar(mi % 10) && At(t, p + 5) == ':'
    && At(t, p + 6) == DigitChar(s / 10) && At(t, p + 7) == DigitChar(s % 10)
  }

  lemma ClockDigits(t: string, p: nat, h: nat, mi: nat, s: nat)
    requires h < 100 && mi < 100 && s < 100 && ClockAt(t, p, h, mi, s)
    ensures TwoDigits(t, p) && At(t, p + 2) == ':' && TwoDigits(t, p + 3) && At(t, p + 5) == ':' && TwoDigits(t, p + 6)
    ensures TwoAt(t, p) == h && TwoAt(t, p + 3) == mi && TwoAt(t, p + 6) == s
  {
    TwoBack(h);
    TwoBack(mi);
    TwoBack(s);
  }

  /** The time alone, once the characters are in place. */
  lemma ClockThenFraction(t: string, h: nat, mi: nat, s: nat, f: nat, k: nat)
    requires h < 100 && mi < 100 && s < 100 && k <= 3 && f < Pow10(k)
    requires var p: nat := if At(t, 0) == '-' then 1 else 0;
             && ClockAt(t, p, h, mi, s)
             && if k == 0 then At(t, p + 8) != '.'
                else At(t, p + 8) == '.' && p + 9 + k <= |t| && t[p + 9..p + 9 + k] == Fixed(f, k)
                     && (k < 3 ==> !IsDigit(At(t, p + 9 + k)))
    ensures var p: nat := if At(t, 0) == '-' then 1 else 0;
            var ms := (h * 3600 + mi * 60 + s) * 1000 + f;
            ReadTime(t) == Some((if p == 1 then -ms else ms, p + 8 + if k == 0 then 0 else 1 + k))
  {
    hide Fixed, Pow10, ClockAt;
    var p: nat := if At(t, 0) == '-' then 1 else 0;
    ClockDigits(t, p, h, mi, s);
    if k == 0 {
      NoFraction(f);
    } else {
      NumberFixed(f, k);
      forall j: nat | p + 9 <= j < p + 9 + k
        ensures IsDigit(At(t, j))
      {
        assert t[j] == t[p + 9..p + 9 + k][j - p - 9];
      }
    }
  }

  /** Every such text is a time: digits behind the point are milliseconds, however many
      there are. */
  lemma TimeRead(neg: bool, h: nat, mi: nat, s: nat, f: nat, k: nat, rest: string)
    requires h < 100 && mi < 100 && s < 100 && k <= 3 && f < Pow10(k)
    requires k == 0 ==> At(rest, 0) != '.'
    requires 0 < k < 3 ==> !IsDigit(At(rest, 0))
    ensures var text := WrittenTime(neg, h, mi, s, f, k);
            var ms := (h * 3600 + mi * 60 + s) * 1000 + f;
            ReadLiteral(text + rest) == ATime(if neg then -ms else ms, |text|)
  {
    hide Fixed, DigitRun, WrittenTime, Pow10, ReadTime;
    TimeChars(neg, h, mi, s, f, k);
    var text := WrittenTime(neg, h, mi, s, f, k);
    var t := text + rest;
    var p: nat := if neg then 1 else 0;
    assert |text| == p + 8 + if k == 0 then 0 else 1 + k;
    assert forall i: nat :: i < |text| ==> At(t, i) == text[i];
    assert At(t, |text|) == At(rest, 0);
    assert ClockAt(t, p, h, mi, s);
    assert k > 0 ==> t[p + 9..p + 9 + k] == Fixed(f, k);
    ClockThenFraction(t, h, mi, s, f, k);
    ClockDigits(t, p, h, mi, s);
    RunIs(t, p, 2);
  }

  lemma PowZero()
    ensures Pow10(0) == 1
  {
  }

  lemma NoFraction(f: nat)
    requires f < Pow10(0)
    ensures f == 0
  {
  }

  /** Half a second, written with one digit, is five milliseconds. */
  lemma FiveForHalf()
    ensures ReadLiteral(WrittenTime(false, 12, 34, 56, 5, 1)) == ATime(((12 * 60 + 34) * 60 + 56) * 1000 + 5, 10)
  {
    hide ReadLiteral, WrittenTime;
    TimeRead(false, 12, 34, 56, 5, 1, "");
    TimeChars(false, 12, 34, 56, 5, 1);
    assert WrittenTime(false, 12, 34, 56, 5, 1) + "" == WrittenTime(false, 12, 34, 56, 5, 1);
  }

  /** Two digits, a colon, two digits, a colon and two digits, behind a sign if there is
      one, and behind a point at least one digit. */
  predicate TimeShape(s: string) {
    var p := if At(s, 0) == '-' then 1 else 0;
    && TwoDigits(s, p) && At(s, p + 2) == ':' && TwoDigits(s, p + 3) && At(s, p + 5) == ':' && TwoDigits(s, p + 6)
    && (At(s, p + 8) == '.' ==> IsDigit(At(s, p + 9)))
  }

  /** What follows a date for a timestamp; the digits of minutes and seconds are not
      looked at. */
  predicate ClockShape(s: string) {
    At(s, 10) == 'D' && TwoDigits(s, 11) && At(s, 13) == ':' && At(s, 16) == ':' && At(s, 19) == '.'
  }

  /** Which texts begin with a time, a date or a timestamp, and which are an error. */
  lemma LiteralKinds(s: string)
    ensures var date := DateShape(s) && TwoAt(s, 5) <= 13;
            && (ReadLiteral(s).ATime? <==> TimeShape(s))
            && (ReadLiteral(s).ADate? <==> date && At(s, 10) != 'D')
            && (ReadLiteral(s).AStamp? <==> date && ClockShape(s))
            && (ReadLiteral(s).Broken? <==> date && At(s, 10) == 'D' && !ClockShape(s))
  {
    hide YmdToDate, Nanos;
    var p := if At(s, 0) == '-' then 1 else 0;
    FirstDigit(s);
    if TwoDigits(s, p) && At(s, p + 2) == ':' { RunIs(s, p, 2); }
    TwoOfRun(s, p);
  }

  lemma TwoOfRun(s: string, p: nat)
    ensures DigitRun(s, p) == 2 ==> TwoDigits(s, p)
  {
  }

  /** Any number of digits behind the point of a timestamp are its fraction of a second,
      cut to nanoseconds. */
  lemma StampFraction(s: string, p: nat, c: Clock, f: nat, k: nat, days: int, rest: string)
    requires 0 <= c.h < 100 && 0 <= c.mi < 100 && 0 <= c.s < 100 && f < Pow10(k)
    requires p <= |s| && !IsDigit(At(rest, 0))
    requires s[p..] == [DigitChar(c.h / 10), DigitChar(c.h % 10), ':', DigitChar(c.mi / 10), DigitChar(c.mi % 10), ':',
                        DigitChar(c.s / 10), DigitChar(c.s % 10), '.'] + Fixed(f, k) + rest
    ensures var nanos := if k <= 9 then f * Pow10(9 - k) else f / Pow10(k - 9);
            ReadClock(s, p, days)
            == AStamp(days * NS_PER_DAY + ((c.h * 3600 + c.mi * 60 + c.s) * NS_PER_SEC + nanos), p + 9 + k)
  {
    hide Fixed, Nanos, DigitRun, Pow10;
    var t := s[p..];
    assert forall i: nat :: i < |t| ==> s[p + i] == t[i];
    assert s[p] == t[0] && s[p + 1] == t[1] && s[p + 2] == t[2] && s[p + 3] == t[3] && s[p + 4] == t[4]
           && s[p + 5] == t[5] && s[p + 6] == t[6] && s[p + 7] == t[7] && s[p + 8] == t[8];
    TwoBack(c.h);
    TwoBack(c.mi);
    TwoBack(c.s);
    assert t[9..9 + k] == Fixed(f, k);
    assert s[p + 9..p + 9 + k] == t[9..9 + k];
    forall j | p + 9 <= j < p + 9 + k
      ensures IsDigit(At(s, j))
    {
      assert s[j] == s[p + 9..p + 9 + k][j - p - 9];
    }
    assert At(s, p + 9 + k) == At(rest, 0) by { if rest != [] { assert t[9 + k] == rest[0]; } }
    RunIs(s, p + 9, k);
    NanosOf(s, p + 9, f, k);
  }

  lemma NanosOf(s: string, i: nat, f: nat, k: nat)
    requires i + k <= |s| && s[i..i + k] == Fixed(f, k) && f < Pow10(k)
    ensures (if k == 0 then 0 else Nanos(s, i, k)) == if k <= 9 then f * Pow10(9 - k) else f / Pow10(k - 9)
  {
    hide Fixed, Pow10;
    PowZero();
    if k == 0 { NoFraction(f); }
    Digits(s, i, f, k, 9);
  }

  lemma {:induction false} FixedTake(n: nat, w: nat, j: nat)
    requires j <= w
    ensures Fixed(n, w)[..j] == Fixed(n / Pow10(w - j), j)
    decreases w
  {
    if j < w {
      FixedTake(n / 10, w - 1, j);
      assert Fixed(n, w)[..j] == Fixed(n / 10, w - 1)[..j];
      DivDiv(n, 10, Pow10(w - 1 - j));
    } else {
      assert Fixed(n, w)[..w] == Fixed(n, w);
    }
  }

  lemma {:induction false} FrontDigits(f: nat, k: nat, w: nat)
    requires k >= w && f < Pow10(k)
    ensures f / Pow10(k - w) < Pow10(w)
    decreases k
  {
    if k > w {
      FrontDigits(f / 10, k - 1, w);
      DivDiv(f, 10, Pow10(k - w - 1));
    } else {
      PowZero();
    }
  }

  /** The first `w` digits of a fraction, padded with zeros. */
  lemma Digits(s: string, i: nat, f: nat, k: nat, w: nat)
    requires i + k <= |s| && s[i..i + k] == Fixed(f, k) && f < Pow10(k)
    ensures var n := if k < w then k else w;
            Number(s[i..i + n], 0) * Pow10(w - n) == if k <= w then f * Pow10(w - k) else f / Pow10(k - w)
  {
    hide Fixed, Pow10;
    PowZero();
    if k <= w {
      NumberFixed(f, k);
    } else {
      FixedTake(f, k, w);
      assert s[i..i + w] == s[i..i + k][..w];
      FrontDigits(f, k, w);
      NumberFixed(f / Pow10(k - w), w);
    }
  }
}
