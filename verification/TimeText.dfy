/** Dates, times and timestamps as text, and the readers of that text. */
module TimeText {
  import opened Options
  import opened CInts
  import opened Calendar
  import opened CalTable

  const NS_PER_SEC: int := 1_000_000_000
  const NS_PER_DAY: int := 86_400 * NS_PER_SEC

  // ----- decimal digits -----

  function DigitChar(d: int): char
    requires 0 <= d <= 9
  {
    '0' + d as char
  }

  /** The value a reader takes a character for, digit or not. */
  function Val(c: char): int { c as int - '0' as int }

  predicate IsDigit(c: char) { '0' <= c <= '9' }

  /** The last `w` decimal digits. */
  function Fixed(n: nat, w: nat): (s: string)
    ensures |s| == w && forall i :: 0 <= i < w ==> IsDigit(s[i])
  {
    if w == 0 then "" else Fixed(n / 10, w - 1) + [DigitChar(n % 10)]
  }

  function Decimal(n: nat): string {
    if n < 10 then [DigitChar(n)] else Decimal(n / 10) + [DigitChar(n % 10)]
  }

  function Zeros(k: nat): string { seq(k, _ => '0') }

  /** What %0wd prints for a number that is not negative. */
  function Padded(n: nat, w: nat): string {
    var s := Decimal(n);
    if |s| >= w then s else Zeros(w - |s|) + s
  }

  function Pow10(k: nat): (r: nat)
    ensures r > 0
  {
    if k == 0 then 1 else 10 * Pow10(k - 1)
  }

  lemma {:induction false} DecimalFixed(n: nat, w: nat)
    requires 0 < w && n < Pow10(w)
    ensures |Decimal(n)| <= w && Fixed(n, w) == Zeros(w - |Decimal(n)|) + Decimal(n)
    decreases w
  {
    if n < 10 {
      FixedZero(w - 1);
      assert n / 10 == 0;
    } else {
      assert w > 1 && n / 10 < Pow10(w - 1);
      DecimalFixed(n / 10, w - 1);
      assert w - |Decimal(n)| == w - 1 - |Decimal(n / 10)|;
    }
  }

  lemma {:induction false} FixedZero(w: nat)
    ensures Fixed(0, w) == Zeros(w)
  {
    if w > 0 {
      FixedZero(w - 1);
      assert Zeros(w) == Zeros(w - 1) + ['0'];
    }
  }

  /** A number that fits its width is printed in exactly that width. */
  lemma PaddedFixed(n: nat, w: nat)
    requires 0 < w && n < Pow10(w)
    ensures Padded(n, w) == Fixed(n, w)
  {
    DecimalFixed(n, w);
    if |Decimal(n)| == w { assert Zeros(0) + Decimal(n) == Decimal(n); }
  }

  lemma Fixed2(n: nat)
    requires n < 100
    ensures Padded(n, 2) == [DigitChar(n / 10), DigitChar(n % 10)]
  {
    assert Pow10(2) == 100 by { assert Pow10(1) == 10; }
    PaddedFixed(n, 2);
    assert Fixed(n, 1) == [DigitChar(n % 10)];
    assert Fixed(n / 10, 1) == Fixed(n / 100, 0) + [DigitChar(n / 10)];
  }

  lemma Fixed4(n: nat)
    requires n < 10000
    ensures Padded(n, 4) == [DigitChar(n / 1000), DigitChar(n / 100 % 10), DigitChar(n / 10 % 10), DigitChar(n % 10)]
  {
    hide Padded, Fixed, Pow10, DigitChar;
    TenThousand();
    PaddedFixed(n, 4);
    assert n / 1000 % 10 == n / 1000;
    FixedStep(n / 1000, 0);
    FixedStep(n / 100, 1);
    FixedStep(n / 10, 2);
    FixedStep(n, 3);
  }

  lemma TenThousand()
    ensures Pow10(4) == 10000
  {
    assert Pow10(2) == 100;
  }

  lemma FixedStep(n: nat, w: nat)
    ensures Fixed(n, w + 1) == Fixed(n / 10, w) + [DigitChar(n % 10)]
  {
  }

  /** The number a run of digits stands for, after what has been read before it. */
  function Number(s: string, acc: int): int {
    if s == "" then acc else Number(s[1..], acc * 10 + Val(s[0]))
  }

  lemma {:induction false} NumberSnoc(s: string, c: char, acc: int)
    ensures Number(s + [c], acc) == Number(s, acc) * 10 + Val(c)
    decreases |s|
  {
    if s == "" {
      assert (s + [c])[1..] == "";
    } else {
      assert (s + [c])[1..] == s[1..] + [c];
      NumberSnoc(s[1..], c, acc * 10 + Val(s[0]));
    }
  }

  lemma {:induction false} NumberFixed(n: nat, w: nat)
    requires n < Pow10(w)
    ensures Number(Fixed(n, w), 0) == n
  {
    if w > 0 {
      NumberFixed(n / 10, w - 1);
      NumberSnoc(Fixed(n / 10, w - 1), DigitChar(n % 10), 0);
    }
  }

  /** C strings end in a zero byte. */
  function At(s: string, i: nat): char { if i < |s| then s[i] else '\0' }

  function TwoAt(s: string, i: nat): int { Val(At(s, i)) * 10 + Val(At(s, i + 1)) }

  // ----- times within a day -----

  /** A span within a day as hours, minutes, seconds and the rest in nanoseconds. */
  datatype Clock = Clock(h: int, mi: int, s: int, nanos: int)

  function ClockOf(span: int): Clock {
    var secs := span / NS_PER_SEC;
    Clock(secs / 3600, secs % 3600 / 60, secs % 60, span % NS_PER_SEC)
  }

  lemma ClockParts(span: int)
    requires 0 <= span < NS_PER_DAY
    ensures var c := ClockOf(span);
            && 0 <= c.h <= 23 && 0 <= c.mi <= 59 && 0 <= c.s <= 59 && 0 <= c.nanos < NS_PER_SEC
            && (c.h * 3600 + c.mi * 60 + c.s) * NS_PER_SEC + c.nanos == span
  {
    var secs := span / NS_PER_SEC;
    assert secs % 60 == secs % 3600 % 60;
  }

  /** Truncating division and remainder, corrected for negative values: day and span. */
  function DayOf(ns: int): int {
    var days := Trunc(ns, NS_PER_DAY);
    if ns - days * NS_PER_DAY < 0 then days - 1 else days
  }

  function SpanOf(ns: int): int { ns - DayOf(ns) * NS_PER_DAY }

  lemma DaySpan(ns: int)
    ensures 0 <= SpanOf(ns) < NS_PER_DAY
  {
    if ns < 0 { assert (-ns) / NS_PER_DAY * NS_PER_DAY <= -ns; }
  }
}
