/** Day numbers and dates: the proleptic Gregorian calendar day by day, and the era
    algorithm of the CSV reader and writer. Day 0 is 2000-01-01. */
module Calendar {
  import opened CInts

  datatype Date = Date(y: int, m: int, d: int)

  predicate Leap(y: int) { (y % 4 == 0 && y % 100 != 0) || y % 400 == 0 }

  function MonthLength(y: int, m: int): (n: int)
    requires 1 <= m <= 12
    ensures 28 <= n <= 31
  {
    if m == 2 then (if Leap(y) then 29 else 28)
    else if m == 4 || m == 6 || m == 9 || m == 11 then 30
    else 31
  }

  predicate ValidDate(t: Date) { 1 <= t.m <= 12 && 1 <= t.d <= MonthLength(t.y, t.m) }

  /** The calendar itself: the day after. */
  function NextDay(t: Date): (u: Date)
    requires ValidDate(t)
    ensures ValidDate(u)
  {
    if t.d < MonthLength(t.y, t.m) then Date(t.y, t.m, t.d + 1)
    else if t.m < 12 then Date(t.y, t.m + 1, 1)
    else Date(t.y + 1, 1, 1)
  }

  const EPOCH_SHIFT: int := 719468 + 10957

  function EraOfYear(y: int): int { Trunc(if y >= 0 then y else y - 399, 400) }

  function DayOfEra(yoe: int, m: int, d: int): int {
    var doy := Trunc(153 * m + 2, 5) + d - 1;
    yoe * 365 + Trunc(yoe, 4) - Trunc(yoe, 100) + doy
  }

  /** civil_to_days: years from March on, in eras of 400 years. */
  function CivilToDays(year: int, month: int, d: int): int {
    var y := if month <= 2 then year - 1 else year;
    var m := if month <= 2 then month + 9 else month - 3;
    var era := EraOfYear(y);
    era * 146097 + DayOfEra(y - era * 400, m, d) - EPOCH_SHIFT
  }

  function EraOfDay(z: int): int { Trunc(if z >= 0 then z else z - 146096, 146097) }

  /** A day of the year from March as a date; `y` is the year from March. */
  function DateInYear(y: int, doy: int): Date {
    var mp := Trunc(5 * doy + 2, 153);
    var d := doy - Trunc(153 * mp + 2, 5) + 1;
    var m := if mp < 10 then mp + 3 else mp - 9;
    Date(if m <= 2 then y + 1 else y, m, d)
  }

  /** csv_write_date on numbers of any size: the date of a day number. */
  function DateOf(v: int): Date { DateOfShifted(v + EPOCH_SHIFT) }

  /** csv_write_date: the day number is shifted in 32 bits. */
  function WrittenDate(v: int): Date { DateOfShifted(Wrap32(v + EPOCH_SHIFT)) }

  function DateOfShifted(z: int): Date {
    var era := EraOfDay(z);
    var doe := z - era * 146097;
    var yoe := YearOfEra(doe);
    DateInYear(yoe + era * 400, doe - (365 * yoe + Trunc(yoe, 4) - Trunc(yoe, 100)))
  }

  function YearOfEra(doe: int): int {
    Trunc(doe - Trunc(doe, 1460) + Trunc(doe, 36524) - Trunc(doe, 146096), 365)
  }

  lemma AtLeast(k: int, b: int)
    requires k > 0 && b > 0
    ensures k * b >= b
  {
  }

  lemma Distribute(p: int, q: int, b: int)
    ensures (q - p) * b == q * b - p * b
  {
  }

  lemma DivIs(a: int, b: int, q: int)
    requires b > 0 && q * b <= a < q * b + b
    ensures a / b == q
  {
    var p := a / b;
    Bounds(a, b);
    Distribute(p, q, b);
    Distribute(q, p, b);
    if q > p { AtLeast(q - p, b); }
    if q < p { AtLeast(p - q, b); }
  }

  lemma Bounds(a: int, b: int)
    requires b > 0
    ensures (a / b) * b <= a < (a / b) * b + b
  {
  }

  /** The era quotients, written with two truncating branches, are floors. */
  lemma EraFloor(y: int, n: int, q: int)
    requires n > 1 && q * n <= y < q * n + n
    ensures Trunc(if y >= 0 then y else y - (n - 1), n) == q
  {
    Distribute(0, -q, n);
    if y < 0 {
      assert (-q) * n == -(q * n);
      DivIs(-(y - (n - 1)), n, -q);
    } else {
      DivIs(y, n, q);
    }
  }

  /** A year of an era, from March, as a century, a group of four years and a year. */
  datatype EraYear = EraYear(c: int, q: int, r: int)

  predicate InEra(e: EraYear) { 0 <= e.c <= 3 && 0 <= e.q <= 24 && 0 <= e.r <= 3 }

  function Index(e: EraYear): int { 100 * e.c + 4 * e.q + e.r }

  /** How many days the year has: the leap day is its last. */
  function YearDays(e: EraYear): int { if e.r == 3 && (e.q < 24 || e.c == 3) then 366 else 365 }

  lemma EraParts(yoe: int) returns (e: EraYear)
    requires 0 <= yoe <= 399
    ensures InEra(e) && Index(e) == yoe
  {
    e := EraYear(yoe / 100, yoe % 100 / 4, yoe % 4);
  }

  lemma IndexQuotients(e: EraYear)
    requires InEra(e)
    ensures Index(e) / 4 == 25 * e.c + e.q && Index(e) / 100 == e.c
  {
    DivIs(Index(e), 4, 25 * e.c + e.q);
    DivIs(Index(e), 100, e.c);
  }

  /** First day of the year within the era. */
  function YearStart(e: EraYear): int { 36524 * e.c + 1461 * e.q + 365 * e.r }

  lemma StartFormula(e: EraYear)
    requires InEra(e)
    ensures YearStart(e) == 365 * Index(e) + Index(e) / 4 - Index(e) / 100
  {
    IndexQuotients(e);
  }

  /** The three quotients of the year formula, for a day of the era. */
  lemma YearQuotients(e: EraYear, doy: int)
    requires InEra(e) && 0 <= doy < YearDays(e)
    ensures var doe := YearStart(e) + doy;
            var x := if 24 * e.c + e.q + 365 * e.r + doy >= 1460 then 1 else 0;
            var w := if e.c == 3 && e.q == 24 && e.r == 3 && doy == 365 then 1 else 0;
            && 0 <= doe <= 146096
            && doe / 1460 == 25 * e.c + e.q + x && doe / 36524 == e.c + w && doe / 146096 == w
  {
    var doe := YearStart(e) + doy;
    var x := if 24 * e.c + e.q + 365 * e.r + doy >= 1460 then 1 else 0;
    DivIs(doe, 1460, 25 * e.c + e.q + x);
    var w := if e.c == 3 && e.q == 24 && e.r == 3 && doy == 365 then 1 else 0;
    DivIs(doe, 36524, e.c + w);
    DivIs(doe, 146096, w);
  }

  /** The year formula finds the year a day of the era lies in. */
  lemma YearFound(e: EraYear, doy: int)
    requires InEra(e) && 0 <= doy < YearDays(e)
    ensures var doe := YearStart(e) + doy; 0 <= doe <= 146096 && YearOfEra(doe) == Index(e)
  {
    YearQuotients(e, doy);
    var x := if 24 * e.c + e.q + 365 * e.r + doy >= 1460 then 1 else 0;
    DivIs(365 * Index(e) + (doy - x), 365, Index(e));
  }

  lemma {:induction false} YearCovers(doe: int) returns (e: EraYear, doy: int)
    requires 0 <= doe <= 146096
    ensures InEra(e) && 0 <= doy < YearDays(e) && doe == YearStart(e) + doy
  {
    var c := if doe == 146096 then 3 else doe / 36524;
    var inC := doe - 36524 * c;
    var q := if inC == 36524 then 24 else inC / 1461;
    var inQ := inC - 1461 * q;
    var r := if inQ >= 1460 then 3 else inQ / 365;
    e, doy := EraYear(c, q, r), inQ - 365 * r;
  }

  /** Months from March, 0 to 11, and the day of the year each starts on. */
  function MonthStart(mp: int): int { (153 * mp + 2) / 5 }

  lemma MonthFound(mp: int, d: int)
    requires 0 <= mp <= 11 && 1 <= d <= (if mp == 11 then 29 else MonthStart(mp + 1) - MonthStart(mp))
    ensures (5 * (MonthStart(mp) + d - 1) + 2) / 153 == mp
  {
  }

  function Shifted(m: int): int
    requires 1 <= m <= 12
  {
    if m <= 2 then m + 9 else m - 3
  }

  lemma MonthLengths(y: int, m: int)
    requires 1 <= m <= 12 && m != 2
    ensures MonthStart(Shifted(m) + 1) - MonthStart(Shifted(m)) == MonthLength(y, m)
  {
  }

  lemma YearQuotient(era: int, e: EraYear)
    requires InEra(e)
    ensures var y := 400 * era + Index(e) + 1;
            && (y % 4 == 0 <==> e.r == 3)
            && (y % 100 == 0 <==> e.r == 3 && e.q == 24)
            && (y % 400 == 0 <==> e.r == 3 && e.q == 24 && e.c == 3)
  {
    var y := 400 * era + Index(e) + 1;
    DivIs(y, 4, 100 * era + 25 * e.c + e.q + (if e.r == 3 then 1 else 0));
    DivIs(y, 100, 4 * era + e.c + (if e.r == 3 && e.q == 24 then 1 else 0));
    DivIs(y, 400, era + (if e.r == 3 && e.q == 24 && e.c == 3 then 1 else 0));
  }

  /** The leap day ends a year from March: the year before a leap year is the long one. */
  lemma LongYear(e: EraYear, era: int)
    requires InEra(e)
    ensures Leap(400 * era + Index(e) + 1) <==> YearDays(e) == 366
  {
    YearQuotient(era, e);
  }

  lemma DayFormula(e: EraYear, mp: int, d: int)
    requires InEra(e) && 0 <= mp <= 11
    ensures DayOfEra(Index(e), mp, d) == YearStart(e) + MonthStart(mp) + d - 1
  {
    IndexQuotients(e);
  }

  lemma CivilFormula(t: Date, era: int, e: EraYear)
    requires InEra(e) && 1 <= t.m <= 12 && 400 * era + Index(e) == (if t.m <= 2 then t.y - 1 else t.y)
    ensures CivilToDays(t.y, t.m, t.d) == era * 146097 + YearStart(e) + MonthStart(Shifted(t.m)) + t.d - 1 - EPOCH_SHIFT
  {
    hide DayOfEra, MonthStart, YearStart, Trunc, EraOfYear, Index, InEra;
    EraIs(if t.m <= 2 then t.y - 1 else t.y, era, e);
    DayFormula(e, Shifted(t.m), t.d);
  }

  lemma EraIs(y: int, era: int, e: EraYear)
    requires InEra(e) && y == 400 * era + Index(e)
    ensures EraOfYear(y) == era && y - era * 400 == Index(e)
  {
    EraFloor(y, 400, era);
  }

  /** A date within its era: the year from March, the month from March, the day. */
  lemma Located(t: Date) returns (era: int, e: EraYear)
    requires ValidDate(t)
    ensures InEra(e) && 400 * era + Index(e) == (if t.m <= 2 then t.y - 1 else t.y)
    ensures 0 <= MonthStart(Shifted(t.m)) + t.d - 1 < YearDays(e)
    ensures CivilToDays(t.y, t.m, t.d) == era * 146097 + YearStart(e) + MonthStart(Shifted(t.m)) + t.d - 1 - EPOCH_SHIFT
  {
    hide CivilToDays, Leap, Index, YearStart;
    var y := if t.m <= 2 then t.y - 1 else t.y;
    era := y / 400;
    e := EraParts(y % 400);
    assert y == 400 * era + y % 400;
    CivilFormula(t, era, e);
    LongYear(e, era);
  }

  lemma DateFormula(v: int, era: int, e: EraYear, doy: int)
    requires InEra(e) && 0 <= doy < YearDays(e) && v + EPOCH_SHIFT == era * 146097 + YearStart(e) + doy
    ensures DateOf(v) == DateInYear(400 * era + Index(e), doy)
  {
    hide YearOfEra, DateInYear, EraOfDay, Index, YearStart, YearDays, InEra, Trunc;
    YearFound(e, doy);
    EraOfDayIs(v + EPOCH_SHIFT, era, YearStart(e) + doy);
    YearOffset(e);
  }

  lemma EraOfDayIs(z: int, era: int, doe: int)
    requires z == era * 146097 + doe && 0 <= doe <= 146096
    ensures EraOfDay(z) == era
  {
    EraFloor(z, 146097, era);
  }

  lemma YearOffset(e: EraYear)
    requires InEra(e)
    ensures 365 * Index(e) + Trunc(Index(e), 4) - Trunc(Index(e), 100) == YearStart(e)
  {
    StartFormula(e);
  }

  /** Reading back what was written: the date printed for the day number of a date is
      that date. */
  lemma DateOfCivil(t: Date)
    requires ValidDate(t)
    ensures DateOf(CivilToDays(t.y, t.m, t.d)) == t
  {
    hide DateOf, CivilToDays, YearStart, Index;
    var era, e := Located(t);
    var mp := Shifted(t.m);
    DateFormula(CivilToDays(t.y, t.m, t.d), era, e, MonthStart(mp) + t.d - 1);
    if t.m != 2 { MonthLengths(t.y, t.m); }
    MonthFound(mp, t.d);
  }

  /** Every day number has a valid date, and reading the date gives the number back. */
  lemma CivilOfDate(v: int)
    ensures ValidDate(DateOf(v))
    ensures CivilToDays(DateOf(v).y, DateOf(v).m, DateOf(v).d) == v
  {
    var t := Placed(v);
    DateOfCivil(t);
  }

  /** The date written for a 32-bit day number is its date exactly up to the last
      number that the shift leaves in range; only then is the number read back. */
  lemma WrittenDateExactly(v: int)
    requires Fits32(v)
    ensures WrittenDate(v) == DateOf(v) <==> v + EPOCH_SHIFT <= INT32_MAX
    ensures var t := WrittenDate(v);
            ValidDate(t) && (CivilToDays(t.y, t.m, t.d) == v <==> v + EPOCH_SHIFT <= INT32_MAX)
  {
    hide DateOfShifted, CivilToDays;
    var u := Wrap32(v + EPOCH_SHIFT) - EPOCH_SHIFT;
    assert WrittenDate(v) == DateOf(u);
    CivilOfDate(u);
    CivilOfDate(v);
  }

  /** The greatest day number is written as a date of the distant past. */
  lemma LastDayWritten()
    ensures WrittenDate(INT32_MAX).y < 0 < DateOf(INT32_MAX).y
  {
    hide DateOfShifted, CivilToDays;
    var t, u := WrittenDate(INT32_MAX), DateOf(INT32_MAX);
    assert WrittenDate(INT32_MAX) == DateOf(INT32_MAX - 0x1_0000_0000);
    CivilOfDate(INT32_MAX - 0x1_0000_0000);
    CivilOfDate(INT32_MAX);
    YearsApart(t);
    YearsApart(u);
  }

  lemma YearsApart(t: Date)
    requires ValidDate(t)
    ensures var v := CivilToDays(t.y, t.m, t.d); (v < -1_000_000 ==> t.y < 0) && (v > 1_000_000 ==> t.y > 0)
  {
    hide CivilToDays;
    var era, e := Located(t);
  }

  lemma MonthCovers(doy: int) returns (mp: int, d: int)
    requires 0 <= doy <= 365
    ensures 0 <= mp <= 11 && doy == MonthStart(mp) + d - 1
    ensures 1 <= d <= (if mp == 11 then doy - 336 else MonthStart(mp + 1) - MonthStart(mp))
  {
    mp := (5 * doy + 2) / 153;
    d := doy - MonthStart(mp) + 1;
  }

  /** The valid date with a given day number. */
  lemma Placed(v: int) returns (t: Date)
    ensures ValidDate(t) && CivilToDays(t.y, t.m, t.d) == v
  {
    var z := v + EPOCH_SHIFT;
    var era, doe := z / 146097, z % 146097;
    var e, doy := YearCovers(doe);
    var mp, d := MonthCovers(doy);
    var m := if mp < 10 then mp + 3 else mp - 9;
    var y := 400 * era + Index(e);
    t := Date(if m <= 2 then y + 1 else y, m, d);
    LongYear(e, era);
    if m != 2 { MonthLengths(t.y, m); }
    var era', e' := Located(t);
    SameEra(era, e, era', e');
  }

  lemma SameEra(era: int, e: EraYear, era': int, e': EraYear)
    requires InEra(e) && InEra(e') && 400 * era + Index(e) == 400 * era' + Index(e')
    ensures era == era' && e == e'
  {
  }

  /** The day number of the day after is one more, whatever month or year ends. */
  lemma CivilNext(t: Date)
    requires ValidDate(t)
    ensures var u := NextDay(t); CivilToDays(u.y, u.m, u.d) == CivilToDays(t.y, t.m, t.d) + 1
  {
    hide CivilToDays, Leap, Index, YearStart;
    var u := NextDay(t);
    var era, e := Located(t);
    var era', e' := Located(u);
    if t.d < MonthLength(t.y, t.m) || t.m != 2 {
      SameEra(era, e, era', e');
      if t.m != 2 { MonthLengths(t.y, t.m); }
    } else {
      NextEraYear(era, e, era', e');
      LongYear(e, era);
    }
  }

  /** The next year of the era, or the first of the next era. */
  /** The year after, and 1 if it is in the next era. */
  function YearAfter(e: EraYear): (EraYear, int) {
    if e.r < 3 then (EraYear(e.c, e.q, e.r + 1), 0)
    else if e.q < 24 then (EraYear(e.c, e.q + 1, 0), 0)
    else if e.c < 3 then (EraYear(e.c + 1, 0, 0), 0)
    else (EraYear(0, 0, 0), 1)
  }

  lemma IndexAfter(e: EraYear)
    requires InEra(e)
    ensures var (n, carry) := YearAfter(e); InEra(n) && Index(n) + 400 * carry == Index(e) + 1
  {
  }

  lemma StartAfter(e: EraYear)
    requires InEra(e)
    ensures var (n, carry) := YearAfter(e); 146097 * carry + YearStart(n) == YearStart(e) + YearDays(e)
  {
  }

  lemma NextEraYear(era: int, e: EraYear, era': int, e': EraYear)
    requires InEra(e) && InEra(e') && 400 * era' + Index(e') == 400 * era + Index(e) + 1
    ensures era' * 146097 + YearStart(e') == era * 146097 + YearStart(e) + YearDays(e)
  {
    var (n, carry) := YearAfter(e);
    IndexAfter(e);
    StartAfter(e);
    SameEra(era + carry, n, era', e');
  }

  lemma EpochDay()
    ensures CivilToDays(2000, 1, 1) == 0 && DateOf(0) == Date(2000, 1, 1)
  {
    assert CivilToDays(2000, 1, 1) == 0;
    DateOfCivil(Date(2000, 1, 1));
  }

  /** The printed dates are the calendar: day 0 is the first of January 2000, and each
      day number prints as the day after the one before. */
  lemma DatesFollowCalendar(v: int)
    ensures DateOf(0) == Date(2000, 1, 1)
    ensures ValidDate(DateOf(v)) && DateOf(v + 1) == NextDay(DateOf(v))
  {
    hide DateOf, CivilToDays;
    EpochDay();
    CivilOfDate(v);
    CivilNext(DateOf(v));
    DateOfCivil(NextDay(DateOf(v)));
  }

  /** Day numbers and valid dates match one to one. */
  lemma CivilInjective(t: Date, u: Date)
    requires ValidDate(t) && ValidDate(u) && CivilToDays(t.y, t.m, t.d) == CivilToDays(u.y, u.m, u.d)
    ensures t == u
  {
    DateOfCivil(t);
    DateOfCivil(u);
  }
}
