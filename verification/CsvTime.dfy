/** Dates, times and timestamps in CSV files: the writer's text and the reader that does
    not look at separators. */
module CsvTime {
  import opened Options
  import opened CInts
  import opened Calendar
  import opened CalTable
  import opened TimeText
  import opened TimeLiteral

  const MS_PER_DAY: int := 86_400_000

  /** Fractional digits, at most `w`, padded with zeros to `w`. */
  function Fraction(s: string, i: nat, w: nat): int {
    var n := if DigitRun(s, i) < w then DigitRun(s, i) else w;
    if n == 0 then 0 else Number(s[i..i + n], 0) * Pow10(w - n)
  }

  method ReadFraction(s: string, start: nat, w: nat) returns (frac: int)
    requires start <= |s|
    ensures frac == Fraction(s, start, w)
  {
    hide DigitRun, Number;
    ghost var run := DigitRun(s, start);
    ghost var n := if run < w then run else w;
    frac := 0;
    var i, digits := start, 0;
    NumberStart();
    assert s[start..start] == "";
    while i < |s| && digits < w
      invariant 0 <= digits <= n && i == start + digits <= |s|
      invariant frac == Number(s[start..i], 0)
    {
      RunEnds(s, start, digits);
      if Val(s[i]) < 0 || Val(s[i]) > 9 { break; }
      NumberSnoc(s[start..i], s[i], 0);
      assert s[start..i] + [s[i]] == s[start..i + 1];
      frac := frac * 10 + Val(s[i]);
      i := i + 1;
      digits := digits + 1;
    }
    if i == |s| { RunFits(s, start); }
    assert digits == n;
    ghost var value := frac;
    assert value * Pow10(0) == value;
    while digits < w
      invariant n <= digits <= w && frac == value * Pow10(digits - n)
    {
      PowStep(value, digits - n);
      frac := frac * 10;
      digits := digits + 1;
    }
  }

  lemma NumberStart()
    ensures Number("", 0) == 0
  {
  }

  /** The run is longer than `k` exactly if the character behind its first `k` is a digit. */
  lemma {:induction false} RunEnds(s: string, i: nat, k: nat)
    requires k <= DigitRun(s, i) && i + k < |s|
    ensures k < DigitRun(s, i) <==> 0 <= Val(s[i + k]) <= 9
    decreases k
  {
    if k > 0 { RunEnds(s, i + 1, k - 1); }
  }

  lemma RunFits(s: string, i: nat)
    requires i <= |s|
    ensures i + DigitRun(s, i) <= |s|
  {
  }

  /** fast_date on the first ten characters. */
  function FastDate(s: string): Option<int> {
    if |s| < 10 then None
    else
      var y := Val(s[0]) * 1000 + Val(s[1]) * 100 + Val(s[2]) * 10 + Val(s[3]);
      var m := Val(s[5]) * 10 + Val(s[6]);
      var d := Val(s[8]) * 10 + Val(s[9]);
      if m < 1 || m > 12 || d < 1 || d > 31 then None else Some(CivilToDays(y, m, d))
  }

  /** fast_time and fast_time_ns, for units of 10^-w seconds. */
  function FastTime(s: string, w: nat): Option<int> {
    if |s| < 8 then None
    else
      var h := Val(s[0]) * 10 + Val(s[1]);
      var mi := Val(s[3]) * 10 + Val(s[4]);
      var sec := Val(s[6]) * 10 + Val(s[7]);
      if h > 23 || mi > 59 || sec > 59 then None
      else Some((h * 3600 + mi * 60 + sec) * Pow10(w) + if At(s, 8) == '.' then Fraction(s, 9, w) else 0)
  }

  method ReadTimeField(s: string, w: nat) returns (r: Option<int>)
    ensures r == FastTime(s, w)
  {
    hide Fraction;
    if |s| < 8 { return None; }
    var h := Val(s[0]) * 10 + Val(s[1]);
    var mi := Val(s[3]) * 10 + Val(s[4]);
    var sec := Val(s[6]) * 10 + Val(s[7]);
    if h > 23 || mi > 59 || sec > 59 { return None; }
    var v := (h * 3600 + mi * 60 + sec) * Pow10(w);
    if |s| > 8 && s[8] == '.' {
      var frac := ReadFraction(s, 9, w);
      v := v + frac;
    }
    r := Some(v);
  }

  function FastTimestamp(s: string): Option<int> {
    if |s| < 19 then None
    else match FastDate(s[..10])
         case None => None
         case Some(days) =>
           (match FastTime(s[11..], 9)
            case None => None
            case Some(ns) => Some(days * NS_PER_DAY + ns))
  }

  // ----- writing -----

  function CsvDate(v: int): string
    requires Fits32(v) && WrittenDate(v).y >= 0
  {
    var t := WrittenDate(v);
    WrittenDateExactly(v);
    Padded(t.y, 4) + "-" + Padded(t.m, 2) + "-" + Padded(t.d, 2)
  }

  /** A clock with its fraction only if there is one. */
  function CsvClock(h: nat, mi: nat, s: nat, frac: nat, w: nat): string {
    Padded(h, 2) + ":" + Padded(mi, 2) + ":" + Padded(s, 2) + if frac > 0 then "." + Padded(frac, w) else ""
  }

  function CsvTimeOf(ms: int): string {
    var u := Magnitude(ms);
    (if ms < 0 then "-" else "")
    + CsvClock(u / 3600000, u % 3600000 / 60000, u % 60000 / 1000, u % 1000, 3)
  }

  function CsvTimestamp(ns: int): string
    requires Fits32(DayOf(ns)) && WrittenDate(DayOf(ns)).y >= 0
  {
    DaySpan(ns);
    var c := ClockOf(SpanOf(ns));
    ClockParts(SpanOf(ns));
    CsvDate(DayOf(ns)) + "T" + CsvClock(c.h, c.mi, c.s, c.nanos, 9)
  }

  // ----- reading back -----

  /** Four-digit years are far from the end of 32 bits. */
  lemma FourDigitsFit(v: int)
    requires 0 <= DateOf(v).y <= 9999
    ensures Fits32(v) && WrittenDate(v) == DateOf(v)
  {
    hide DateOf, CivilToDays, WrittenDate;
    CivilOfDate(v);
    var era, e := Located(DateOf(v));
    WrittenDateExactly(v);
  }

  lemma CsvDateText(v: int)
    requires 0 <= DateOf(v).y <= 9999
    ensures Fits32(v) && WrittenDate(v) == DateOf(v)
    ensures var t := DateOf(v);
            ValidDate(t) && CsvDate(v) ==
            [DigitChar(t.y / 1000), DigitChar(t.y / 100 % 10), DigitChar(t.y / 10 % 10), DigitChar(t.y % 10), '-',
             DigitChar(t.m / 10), DigitChar(t.m % 10), '-', DigitChar(t.d / 10), DigitChar(t.d % 10)]
  {
    hide DateOf, Padded, WrittenDate;
    CivilOfDate(v);
    FourDigitsFit(v);
    var t := DateOf(v);
    Fixed4(t.y);
    Fixed2(t.m);
    Fixed2(t.d);
  }

  /** A date with a year of four digits is read back as written. */
  lemma CsvDateRoundTrip(v: int)
    requires 0 <= DateOf(v).y <= 9999
    ensures Fits32(v) && WrittenDate(v) == DateOf(v)
    ensures |CsvDate(v)| == 10 && FastDate(CsvDate(v)) == Some(v)
  {
    hide DateOf, Padded, CivilToDays, WrittenDate;
    CsvDateText(v);
    CivilOfDate(v);
    var t := DateOf(v);
    TwoBack(t.m);
    TwoBack(t.d);
    YearBack(t.y);
  }

  lemma YearBack(n: int)
    requires 0 <= n <= 9999
    ensures Val(DigitChar(n / 1000)) * 1000 + Val(DigitChar(n / 100 % 10)) * 100 + Val(DigitChar(n / 10 % 10)) * 10
            + Val(DigitChar(n % 10)) == n
  {
    var a, b, c := n / 10, n / 100, n / 1000;
    assert b == a / 10 && c == b / 10;
    assert n == 10 * a + n % 10 && a == 10 * b + a % 10 && b == 10 * c + b % 10;
  }

  lemma CsvClockText(h: nat, mi: nat, s: nat, frac: nat, w: nat)
    requires h < 100 && mi < 60 && s < 60 && 0 < w && frac < Pow10(w)
    ensures CsvClock(h, mi, s, frac, w)
         == [DigitChar(h / 10), DigitChar(h % 10), ':', DigitChar(mi / 10), DigitChar(mi % 10), ':',
             DigitChar(s / 10), DigitChar(s % 10)] + (if frac > 0 then "." + Fixed(frac, w) else "")
  {
    hide Padded, Fixed, Pow10;
    Fixed2(h);
    Fixed2(mi);
    Fixed2(s);
    PaddedFixed(frac, w);
  }

  /** A time of less than a hundred hours: a sign if it is negative, three times two
      digits, and three digits of milliseconds if there are any. */
  lemma CsvTimeText(neg: bool, h: nat, mi: nat, s: nat, f: nat)
    requires h < 100 && mi < 60 && s < 60 && f < 1000 && (neg ==> h + mi + s + f > 0)
    ensures var u := (h * 3600 + mi * 60 + s) * 1000 + f;
            CsvTimeOf(if neg then -u else u) ==
            (if neg then "-" else "")
            + [DigitChar(h / 10), DigitChar(h % 10), ':', DigitChar(mi / 10), DigitChar(mi % 10), ':',
               DigitChar(s / 10), DigitChar(s % 10)] + (if f > 0 then "." + Fixed(f, 3) else "")
  {
    hide CsvClock, Fixed, Pow10;
    PiecesOf(h, mi, s, f);
    NanoWidth();
    CsvClockText(h, mi, s, f, 3);
  }

  lemma PiecesOf(h: nat, mi: nat, s: nat, f: nat)
    requires mi < 60 && s < 60 && f < 1000
    ensures var u := (h * 3600 + mi * 60 + s) * 1000 + f;
            u / 3600000 == h && u % 3600000 / 60000 == mi && u % 60000 / 1000 == s && u % 1000 == f
  {
    var u := (h * 3600 + mi * 60 + s) * 1000 + f;
    QuotientIs(3600000, h, mi * 60000 + s * 1000 + f);
    QuotientIs(60000, mi, s * 1000 + f);
    QuotientIs(60000, h * 60 + mi, s * 1000 + f);
    QuotientIs(1000, s, f);
    QuotientIs(1000, h * 3600 + mi * 60 + s, f);
    assert u % 3600000 == u - 3600000 * (u / 3600000) && u % 60000 == u - 60000 * (u / 60000);
  }

  /** A timestamp: its day, a T, and the clock with nine digits of nanoseconds if there
      are any. */
  lemma CsvTimestampText(day: int, h: nat, mi: nat, s: nat, f: nat)
    requires 0 <= DateOf(day).y <= 9999 && h < 24 && mi < 60 && s < 60 && f < NS_PER_SEC
    ensures var ns := day * NS_PER_DAY + (h * 3600 + mi * 60 + s) * NS_PER_SEC + f;
            && DayOf(ns) == day && Fits32(day) && WrittenDate(day) == DateOf(day)
            && CsvTimestamp(ns) == CsvDate(day) + "T"
            + ([DigitChar(h / 10), DigitChar(h % 10), ':', DigitChar(mi / 10), DigitChar(mi % 10), ':',
                DigitChar(s / 10), DigitChar(s % 10)] + if f > 0 then "." + Fixed(f, 9) else "")
  {
    hide CsvClock, Fixed, Pow10, CsvDate, DateOf, WrittenDate, DayOf;
    var span := (h * 3600 + mi * 60 + s) * NS_PER_SEC + f;
    var ns := day * NS_PER_DAY + span;
    DayIs(day, span);
    FourDigitsFit(day);
    ClockParts(span);
    ClockIs(h, mi, s, f);
    NanoWidth();
    CsvClockText(h, mi, s, f, 9);
  }

  lemma DayIs(day: int, span: int)
    requires 0 <= span < NS_PER_DAY
    ensures DayOf(day * NS_PER_DAY + span) == day
  {
  }

  lemma ClockIs(h: nat, mi: nat, s: nat, f: nat)
    requires h < 24 && mi < 60 && s < 60 && f < NS_PER_SEC
    ensures ClockOf((h * 3600 + mi * 60 + s) * NS_PER_SEC + f) == Clock(h, mi, s, f)
  {
    var secs := h * 3600 + mi * 60 + s;
    QuotientIs(NS_PER_SEC, secs, f);
  }

  lemma FractionBack(s: string, i: nat, frac: nat, w: nat)
    requires 0 < w && frac < Pow10(w) && i <= |s| && s[i..] == Fixed(frac, w)
    ensures Fraction(s, i, w) == frac
  {
    hide Fixed, DigitRun;
    forall j | i <= j < i + w
      ensures IsDigit(At(s, j))
    {
      assert s[j] == s[i..][j - i];
    }
    RunIs(s, i, w);
    assert s[i..i + w] == Fixed(frac, w);
    NumberFixed(frac, w);
    assert Number(s[i..i + w], 0) * Pow10(0) == frac;
  }

  /** A clock of the day is read back as written, in units of 10^-w seconds. */
  lemma ClockFieldBack(h: nat, mi: nat, sec: nat, frac: nat, w: nat)
    requires h < 100 && mi < 60 && sec < 60 && 0 < w && frac < Pow10(w)
    ensures FastTime(CsvClock(h, mi, sec, frac, w), w)
         == if h > 23 then None else Some((h * 3600 + mi * 60 + sec) * Pow10(w) + frac)
  {
    hide Fixed, Fraction, CsvClock, Pow10;
    CsvClockText(h, mi, sec, frac, w);
    var s := CsvClock(h, mi, sec, frac, w);
    TwoBack(h);
    TwoBack(mi);
    TwoBack(sec);
    if frac > 0 {
      assert s[8] == '.' && s[9..] == Fixed(frac, w);
      FractionBack(s, 9, frac, w);
    }
  }

  /** The timestamp can be written, and what is written reads as it. */
  ghost predicate StampBack(ns: int) {
    Fits32(DayOf(ns)) && WrittenDate(DayOf(ns)).y >= 0 && FastTimestamp(CsvTimestamp(ns)) == Some(ns)
  }

  /** Every timestamp of 64 bits is read back as written; the reader's product of days
      and nanoseconds stays within 64 bits exactly from day -106751 on. */
  lemma CsvTimestampRoundTrip(ns: int)
    requires INT64_MIN <= ns <= INT64_MAX
    ensures StampBack(ns)
    ensures INT64_MIN <= DayOf(ns) * NS_PER_DAY <= INT64_MAX <==> DayOf(ns) >= -106751
  {
    hide DateOf, WrittenDate, DayOf, CsvDate, CsvClock, FastDate, FastTime, ClockOf, Padded;
    DayRange(ns);
    FourDigitYears(DayOf(ns));
    DaySpan(ns);
    ClockParts(SpanOf(ns));
    var c := ClockOf(SpanOf(ns));
    CsvDateRoundTrip(DayOf(ns));
    NanoWidth();
    ClockFieldBack(c.h, c.mi, c.s, c.nanos, 9);
    var date, clock := CsvDate(DayOf(ns)), CsvClock(c.h, c.mi, c.s, c.nanos, 9);
    ClockLength(c.h, c.mi, c.s, c.nanos, 9);
    var s := CsvTimestamp(ns);
    assert s == date + "T" + clock;
    assert s[..10] == date && s[11..] == clock;
  }

  /** The least timestamp is written, and its day times a day's nanoseconds overflows. */
  lemma LeastStampOverflows()
    ensures StampBack(INT64_MIN) && DayOf(INT64_MIN) * NS_PER_DAY < INT64_MIN
  {
    hide StampBack;
    CsvTimestampRoundTrip(INT64_MIN);
  }

  lemma ClockLength(h: nat, mi: nat, s: nat, frac: nat, w: nat)
    requires h < 100 && mi < 60 && s < 60 && 0 < w && frac < Pow10(w)
    ensures |CsvClock(h, mi, s, frac, w)| >= 8
  {
    hide Fixed, CsvClock, Pow10;
    CsvClockText(h, mi, s, frac, w);
  }

  // ----- times of day: only those of one day survive -----

  lemma MsPieces(u: nat)
    ensures var h, mi, s, f := u / 3600000, u % 3600000 / 60000, u % 60000 / 1000, u % 1000;
            && mi < 60 && s < 60 && f < 1000 && (h * 3600 + mi * 60 + s) * 1000 + f == u
            && (h < 100 <==> u < 360000000) && (h <= 23 <==> u < MS_PER_DAY)
  {
    assert u % 60000 == u % 3600000 % 60000;
    assert u % 1000 == u % 60000 % 1000;
  }

  /** A time of day is read back as written; one of 24 hours or more, or a negative one,
      is not: it becomes null, or, negative by 100 hours or more, another time. */
  lemma CsvTimeRoundTrip(ms: int)
    requires Fits32(ms)
    ensures FastTime(CsvTimeOf(ms), 3) == Some(ms) <==> 0 <= ms < MS_PER_DAY
  {
    hide CsvClock, FastTime;
    var u := Magnitude(ms);
    var h, mi, s, f := u / 3600000, u % 3600000 / 60000, u % 60000 / 1000, u % 1000;
    MsPieces(u);
    NanoWidth();
    if ms >= 0 && h < 100 {
      assert CsvTimeOf(ms) == CsvClock(h, mi, s, f, 3);
      ClockFieldBack(h, mi, s, f, 3);
    } else if ms >= 0 {
      assert CsvTimeOf(ms) == CsvClock(h, mi, s, f, 3);
      LongHours(h, mi, s, f);
    } else if h < 100 {
      ShortNegative(h, mi, s, f);
    } else {
      LongNegative(ms, h, mi, s, f);
    }
  }

  lemma Decimal3(n: nat)
    requires 100 <= n < 1000
    ensures Padded(n, 2) == [DigitChar(n / 100), DigitChar(n / 10 % 10), DigitChar(n % 10)]
  {
    assert Decimal(n) == Decimal(n / 10) + [DigitChar(n % 10)];
    assert Decimal(n / 10) == Decimal(n / 100) + [DigitChar(n / 10 % 10)];
  }

  lemma LongClock(h: nat, mi: nat, s: nat, f: nat)
    requires 100 <= h < 1000 && mi < 60 && s < 60 && f < 1000
    ensures CsvClock(h, mi, s, f, 3)
         == [DigitChar(h / 100), DigitChar(h / 10 % 10), DigitChar(h % 10), ':',
             DigitChar(mi / 10), DigitChar(mi % 10), ':',
             DigitChar(s / 10), DigitChar(s % 10)] + (if f > 0 then "." + Fixed(f, 3) else "")
  {
    hide Padded, Fixed, Pow10;
    Decimal3(h);
    Fixed2(mi);
    Fixed2(s);
    ThreeDigits(f);
  }

  /** The colon behind three hour digits is taken for the tens of the minutes. */
  lemma LongHours(h: nat, mi: nat, s: nat, f: nat)
    requires 100 <= h < 1000 && mi < 60 && s < 60 && f < 1000
    ensures FastTime(CsvClock(h, mi, s, f, 3), 3) == None
  {
    hide CsvClock, Fixed;
    LongClock(h, mi, s, f);
  }

  lemma ShortNegative(h: nat, mi: nat, s: nat, f: nat)
    requires h < 100 && mi < 60 && s < 60 && f < 1000
    ensures FastTime("-" + CsvClock(h, mi, s, f, 3), 3) == None
  {
    hide CsvClock, Fixed;
    NanoWidth();
    CsvClockText(h, mi, s, f, 3);
    var t := "-" + CsvClock(h, mi, s, f, 3);
    assert t[3] == ':';
  }

  lemma LongNegative(ms: int, h: nat, mi: nat, s: nat, f: nat)
    requires ms < 0 && 100 <= h < 1000 && mi < 60 && s < 60 && f < 1000 && -ms >= h * 3600000
    ensures FastTime("-" + CsvClock(h, mi, s, f, 3), 3) != Some(ms)
  {
    hide CsvClock, Fixed, Fraction;
    NanoWidth();
    LongClock(h, mi, s, f);
    var t := "-" + CsvClock(h, mi, s, f, 3);
    assert Val(t[0]) == -3 && Val(t[1]) >= 0 && Val(t[3]) >= 0 && Val(t[4]) == 10 && Val(t[6]) >= 0 && Val(t[7]) == 10;
    FractionSize(t, 9);
  }

  lemma FractionSize(s: string, i: nat)
    ensures Fraction(s, i, 3) >= 0
  {
    var n := if DigitRun(s, i) < 3 then DigitRun(s, i) else 3;
    if n > 0 {
      var t := s[i..i + n];
      forall j | 0 <= j < n
        ensures IsDigit(t[j])
      {
        assert IsDigit(At(s, i + j));
      }
      NumberPositive(t, 0);
      assert Number(s[i..i + n], 0) * Pow10(3 - n) >= 0;
    }
  }

  lemma {:induction false} NumberPositive(s: string, acc: int)
    requires acc >= 0 && forall j :: 0 <= j < |s| ==> IsDigit(s[j])
    ensures Number(s, acc) >= 0
    decreases |s|
  {
    if s != "" { NumberPositive(s[1..], acc * 10 + Val(s[0])); }
  }

  // ----- every field -----

  lemma FractionIs(s: string, i: nat, f: nat, k: nat, w: nat)
    requires i + k <= |s| && s[i..i + k] == Fixed(f, k) && f < Pow10(k) && !IsDigit(At(s, i + k))
    ensures Fraction(s, i, w) == if k <= w then f * Pow10(w - k) else f / Pow10(k - w)
  {
    hide Fixed, Pow10, DigitRun, Number;
    forall j | i <= j < i + k
      ensures IsDigit(At(s, j))
    {
      assert s[j] == s[i..i + k][j - i];
    }
    RunIs(s, i, k);
    Digits(s, i, f, k, w);
    NumberStart();
    if k == 0 || w == 0 { assert s[i..i] == ""; }
  }

  /** Two digits at a place. */
  ghost predicate Pair(s: string, i: nat, n: nat)
    requires n < 100
  {
    At(s, i) == DigitChar(n / 10) && At(s, i + 1) == DigitChar(n % 10)
  }

  /** A clock with any separators, and a fraction of any number of digits behind a point or
      nothing that begins with one: read unless it is no time of a day, the fraction cut or
      padded to its unit. */
  lemma TimeFieldExactly(s: string, w: nat, h: nat, mi: nat, sec: nat, f: nat, k: nat)
    requires h < 100 && mi < 100 && sec < 100 && |s| >= 8 && Pair(s, 0, h) && Pair(s, 3, mi) && Pair(s, 6, sec)
    requires if At(s, 8) == '.' then 9 + k <= |s| && s[9..9 + k] == Fixed(f, k) && !IsDigit(At(s, 9 + k)) else k == 0
    requires f < Pow10(k)
    ensures FastTime(s, w) ==
            if h > 23 || mi > 59 || sec > 59 then None
            else Some((h * 3600 + mi * 60 + sec) * Pow10(w) + if k <= w then f * Pow10(w - k) else f / Pow10(k - w))
  {
    hide Fixed, Pow10, Fraction;
    TwoBack(h);
    TwoBack(mi);
    TwoBack(sec);
    if At(s, 8) == '.' { FractionIs(s, 9, f, k, w); } else { NoFraction(f); }
  }

  /** Four digits, two and two, with any separators: read exactly for a month from 1 to 12
      and a day from 1 to 31, as so many days behind the first of the month, whether or
      not the month has them. */
  lemma DateFieldExactly(s: string, y: nat, m: nat, d: nat)
    requires y < 10000 && m < 100 && d < 100 && |s| >= 10
    requires Pair(s, 0, y / 100) && Pair(s, 2, y % 100) && Pair(s, 5, m) && Pair(s, 8, d)
    ensures FastDate(s) == if 1 <= m <= 12 && 1 <= d <= 31 then Some(CivilToDays(y, m, 1) + d - 1) else None
  {
    hide CivilToDays;
    TwoBack(y / 100);
    TwoBack(y % 100);
    TwoBack(m);
    TwoBack(d);
    DayShift(y, m, d);
  }

  lemma DayShift(y: int, m: int, d: int)
    ensures CivilToDays(y, m, d) == CivilToDays(y, m, 1) + d - 1
  {
  }

  /** A date, any character and a clock. */
  lemma StampFieldExactly(date: string, sep: char, clock: string)
    requires |date| == 10 && |clock| >= 8
    ensures FastTimestamp(date + [sep] + clock) ==
            if FastDate(date).None? || FastTime(clock, 9).None? then None
            else Some(FastDate(date).value * NS_PER_DAY + FastTime(clock, 9).value)
  {
    hide FastDate, FastTime;
    var s := date + [sep] + clock;
    assert s[..10] == date && s[11..] == clock;
  }

  /** The thirty-first of February is a day in March. */
  lemma LateFebruary()
    ensures FastDate("2023-02-31") == FastDate("2023-03-03") == Some(CivilToDays(2023, 3, 3))
  {
    hide FastDate;
    MarchDays();
    hide CivilToDays;
    DateFieldExactly("2023-02-31", 2023, 2, 31);
    DateFieldExactly("2023-03-03", 2023, 3, 3);
  }

  lemma MarchDays()
    ensures CivilToDays(2023, 3, 3) == CivilToDays(2023, 3, 1) + 2 == CivilToDays(2023, 2, 1) + 30
  {
  }
}
