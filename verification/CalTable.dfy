/** The table-driven calendar of the language's own dates, against the era algorithm. */
module CalTable {
  import opened CInts
  import opened Calendar

  const EPOCH_YEAR: int := 2000

  const MONTHDAYS: seq<seq<int>> :=
    [[0, 31, 59, 90, 120, 151, 181, 212, 243, 273, 304, 334, 365],
     [0, 31, 60, 91, 121, 152, 182, 213, 244, 274, 305, 335, 366]]

  function LeapIndex(y: int): nat { if Leap(y) then 1 else 0 }

  /** date_years_by_days, with divisions toward zero. */
  function YearsByDays(yy: int): int { yy * 365 + Trunc(yy, 4) - Trunc(yy, 100) + Trunc(yy, 400) }

  /** ymd_to_date. A year below 1 counts from the same day as year 1. */
  function YmdToDate(year: int, month: int, day: int): int
    requires month <= 13
  {
    var yy := if year > 0 then year - 1 else 0;
    var mm := if month > 0 then month - 1 else 0;
    YearsByDays(yy) - YearsByDays(EPOCH_YEAR - 1) + MONTHDAYS[LeapIndex(year)][mm] + day - 1
  }

  /** A month of 0 is taken for January. */
  lemma MonthZero(year: int, day: int)
    ensures YmdToDate(year, 0, day) == YmdToDate(year, 1, day)
  {
  }

  function FloorYears(y: int): int { 365 * y + y / 4 - y / 100 + y / 400 }

  lemma FloorOfEra(era: int, e: EraYear)
    requires InEra(e)
    ensures FloorYears(400 * era + Index(e)) == era * 146097 + YearStart(e)
  {
    var y := 400 * era + Index(e);
    DivIs(y, 4, 100 * era + 25 * e.c + e.q);
    DivIs(y, 100, 4 * era + e.c);
    DivIs(y, 400, era);
  }

  lemma CivilFlat(t: Date)
    requires ValidDate(t)
    ensures CivilToDays(t.y, t.m, t.d)
         == FloorYears(if t.m <= 2 then t.y - 1 else t.y) + MonthStart(Shifted(t.m)) + t.d - 1 - EPOCH_SHIFT
  {
    hide CivilToDays, FloorYears, MonthStart;
    var era, e := Located(t);
    FloorOfEra(era, e);
  }

  lemma PrevQuotient(y: int, k: int)
    requires k > 0
    ensures (y - 1) / k == y / k - if y % k == 0 then 1 else 0
  {
    Bounds(y, k);
    Distribute(1, y / k, k);
    assert y == k * (y / k) + y % k;
    DivIs(y - 1, k, y / k - if y % k == 0 then 1 else 0);
  }

  lemma NextYear(y: int)
    ensures FloorYears(y) == FloorYears(y - 1) + 365 + LeapIndex(y)
  {
    PrevQuotient(y, 4);
    PrevQuotient(y, 100);
    PrevQuotient(y, 400);
    Divisors(y);
  }

  lemma Divisors(y: int)
    ensures y % 400 == 0 ==> y % 100 == 0
    ensures y % 100 == 0 ==> y % 4 == 0
  {
  }

  lemma TableMonths(y: int, m: int)
    requires 1 <= m <= 12
    ensures MONTHDAYS[LeapIndex(y)][m - 1]
         == if m <= 2 then MonthStart(Shifted(m)) - 306 else MonthStart(Shifted(m)) + 59 + LeapIndex(y)
    ensures m < 12 ==> MONTHDAYS[LeapIndex(y)][m] == MONTHDAYS[LeapIndex(y)][m - 1] + MonthLength(y, m)
    ensures MONTHDAYS[LeapIndex(y)][12] == MONTHDAYS[LeapIndex(y)][11] + 31 == 365 + LeapIndex(y)
  {
  }

  lemma PositiveYears(y: int)
    requires y >= 0
    ensures YearsByDays(y) == FloorYears(y)
  {
  }

  lemma EpochYears()
    ensures YearsByDays(EPOCH_YEAR - 1) == 730119
  {
  }

  /** The two ways of numbering days agree on a date exactly when its year is at least 1. */
  lemma YmdIsCivil(t: Date)
    requires ValidDate(t)
    ensures YmdToDate(t.y, t.m, t.d) == CivilToDays(t.y, t.m, t.d) <==> t.y >= 1
  {
    hide CivilToDays, FloorYears, MonthStart, YearsByDays;
    CivilFlat(t);
    TableMonths(t.y, t.m);
    EpochYears();
    if t.y >= 1 {
      PositiveYears(t.y - 1);
      NextYear(t.y);
    } else {
      BeforeYearOne(t);
      PositiveYears(0);
      YearZero();
      assert MONTHDAYS[LeapIndex(t.y)][t.m - 1] >= 0;
    }
  }

  lemma YearZero()
    ensures FloorYears(0) == 0
  {
  }

  lemma BeforeYearOne(t: Date)
    requires ValidDate(t) && t.y <= 0
    ensures CivilToDays(t.y, t.m, t.d) < -730119
  {
    hide CivilToDays;
    CivilFlat(t);
    var y := if t.m <= 2 then t.y - 1 else t.y;
    assert FloorYears(y) <= (if t.m <= 2 then -366 else 0);
    assert MonthStart(Shifted(t.m)) + t.d - 1 <= if t.m <= 2 then 365 else 305;
  }

  lemma YearBounds(k: int)
    ensures 146097 * k - 591 <= 400 * FloorYears(k) <= 146097 * k + 288
  {
    var era := k / 400;
    var e := EraParts(k % 400);
    assert k == 400 * era + Index(e);
    FloorOfEra(era, e);
  }

  function TruncReal(r: real): int { if r >= 0.0 then r.Floor else -((-r).Floor) }

  /** The quotient offset / 365.2425 as floating point may give it. */
  ghost predicate Near(approx: real, offset: int) {
    -146.097 <= approx * 365.2425 - offset as real <= 146.097
  }

  function Rounded(approx: real): int { TruncReal(if approx >= 0.0 then approx + 0.5 else approx - 0.5) }

  /** Any quotient within 0.4 of the true one rounds to the year or the one after. */
  lemma RoundedYear(offset: int, approx: real, k: int)
    requires FloorYears(k) <= offset < FloorYears(k + 1) && Near(approx, offset)
    ensures Rounded(approx) == k || Rounded(approx) == k + 1
  {
    YearBounds(k);
    YearBounds(k + 1);
    var o := offset as real;
    assert 146097.0 * (k as real) - 591.0 <= 400.0 * o by {
      assert 146097 * k - 591 <= 400 * offset;
      assert (146097 * k - 591) as real <= (400 * offset) as real;
    }
    assert 400.0 * o <= 146097.0 * (k as real) + 145985.0 by {
      assert 400 * offset <= 146097 * (k + 1) + 288 - 400;
      assert (400 * offset) as real <= (146097 * k + 145985) as real;
    }
    assert 146097.0 * approx >= 400.0 * o - 58438.8 && 146097.0 * approx <= 400.0 * o + 58438.8;
    assert approx >= (k as real) - 0.45 && approx < (k as real) + 1.45;
  }

  /** The year, counted from 0, that a day offset lies in, and the day of it. */
  lemma YearOfOffset(t: Date)
    requires ValidDate(t)
    ensures var offset := CivilToDays(t.y, t.m, t.d) + 730119;
            && FloorYears(t.y - 1) <= offset < FloorYears(t.y)
            && offset - FloorYears(t.y - 1) == MONTHDAYS[LeapIndex(t.y)][t.m - 1] + t.d - 1
  {
    hide CivilToDays, FloorYears, MonthStart;
    CivilFlat(t);
    TableMonths(t.y, t.m);
    NextYear(t.y);
    DayInYear(t);
  }

  lemma DayInYear(t: Date)
    requires ValidDate(t)
    ensures 0 <= MONTHDAYS[LeapIndex(t.y)][t.m - 1] + t.d - 1 < 365 + LeapIndex(t.y)
  {
  }

  lemma FromYearOne(days: int)
    ensures days + 730119 >= 0 <==> DateOf(days).y >= 1
  {
    hide DateOf, CivilToDays, FloorYears;
    var t := DateOf(days);
    CivilOfDate(days);
    if t.y <= 0 { BeforeYearOne(t); } else { YearOfOffset(t); NotBelow(t.y - 1); }
  }

  lemma NotBelow(y: int)
    requires y >= 0
    ensures FloorYears(y) >= 0
  {
  }

  /** How many days too late divisions toward zero let a year below 0 start. */
  function Slip(y: int): int { if y >= 0 || Leap(y) then 0 else 1 }

  lemma TruncFloor(y: int, b: int)
    requires b > 0
    ensures Trunc(y, b) == y / b + if y >= 0 || y % b == 0 then 0 else 1
  {
    if y < 0 {
      Bounds(-y, b);
      Bounds(y, b);
      if y % b == 0 {
        assert y == b * (y / b);
        assert -y == b * -(y / b);
        DivIs(-y, b, -(y / b));
      } else {
        assert y == b * (y / b) + y % b;
        assert -y == b * (-(y / b) - 1) + (b - y % b);
        DivIs(-y, b, -(y / b) - 1);
      }
    }
  }

  lemma Slips(y: int)
    ensures YearsByDays(y) == FloorYears(y) + Slip(y)
  {
    hide Trunc;
    TruncFloor(y, 4);
    TruncFloor(y, 100);
    TruncFloor(y, 400);
  }

  /** The year that date_to_ymd settles on, and the day of the year that is left: right
      unless the start of the year has slipped. */
  lemma YearSettled(t: Date, offset: int, years: int)
    requires ValidDate(t) && offset == CivilToDays(t.y, t.m, t.d) + 730119
    requires years == t.y - 1 || years == t.y
    ensures var settled := if YearsByDays(years) > offset then years - 1 else years;
            && (Slip(t.y - 1) == 0 ==> settled == t.y - 1)
            && (settled == t.y - 1 ==>
                  offset - YearsByDays(settled) == MONTHDAYS[LeapIndex(t.y)][t.m - 1] + t.d - 1 - Slip(t.y - 1))
  {
    hide CivilToDays, FloorYears, YearsByDays, Leap;
    YearOfOffset(t);
    Slips(t.y - 1);
    Slips(t.y);
  }

  /** Day numbers of years and offsets are 32-bit values. */
  function Years32(y: int): int { Wrap32(YearsByDays(y)) }

  /** date_to_ymd is right: no 32-bit number overflows, and the day is in year 1 or later
      or in a year that follows a leap year. */
  ghost predicate Decodable(days: int, approx: real) {
    && days + 730119 <= INT32_MAX && YearsByDays(Rounded(approx)) <= INT32_MAX
    && (days + 730119 >= 0 || Leap(DateOf(days).y - 1))
  }

  /** The year settled on in 32 bits, and what is left of the offset. */
  function Settled(offset: int, years: int): int { if Years32(years) > offset then years - 1 else years }

  /** An offset beyond 32 bits comes out as a negative one, and so does its year. */
  lemma OffsetWraps(days: int, approx: real)
    requires Fits32(days) && days + 730119 > INT32_MAX && Near(approx, Wrap32(days + 730119))
    ensures var t := DateOf(days); Settled(Wrap32(days + 730119), Rounded(approx)) + 1 < t.y
  {
    hide DateOf, CivilToDays, FloorYears, YearsByDays;
    var t := DateOf(days);
    CivilOfDate(days);
    YearOfOffset(t);
    assert Wrap32(days + 730119) == days + 730119 - 0x1_0000_0000;
    assert approx < 0.0;
    assert Rounded(approx) <= 0;
    if t.y <= 1 { LowYears(t.y); }
  }

  lemma LowYears(y: int)
    requires y <= 1
    ensures FloorYears(y) <= 365
  {
  }

  /** A rounded year whose first day is beyond 32 bits is not corrected. */
  lemma YearWraps(t: Date, offset: int, years: int)
    requires ValidDate(t) && offset == CivilToDays(t.y, t.m, t.d) + 730119 && Fits32(offset)
    requires (years == t.y - 1 || years == t.y) && YearsByDays(years) > INT32_MAX
    ensures Settled(offset, years) == t.y
  {
    hide CivilToDays, FloorYears, YearsByDays, Leap;
    YearOfOffset(t);
    Slips(t.y - 1);
    Slips(t.y);
    NextYear(t.y);
    if t.y <= 1 { LowYears(t.y); }
  }

  /** Otherwise nothing wraps. */
  lemma NothingWraps(t: Date, offset: int, years: int)
    requires ValidDate(t) && offset == CivilToDays(t.y, t.m, t.d) + 730119 && INT32_MIN + 730119 <= offset <= INT32_MAX
    requires (years == t.y - 1 || years == t.y) && YearsByDays(years) <= INT32_MAX
    ensures var settled := Settled(offset, years);
            && settled == (if YearsByDays(years) > offset then years - 1 else years)
            && Wrap32(offset - Years32(settled)) == offset - YearsByDays(settled)
  {
    hide CivilToDays, FloorYears, YearsByDays, Leap;
    YearOfOffset(t);
    Slips(t.y - 2);
    Slips(t.y - 1);
    Slips(t.y);
    NextYear(t.y - 1);
    NextYear(t.y);
  }

  /** date_to_ymd, whatever the floating-point quotient within 0.4 of the true one: the
      date of the day number exactly when it is decodable. */
  method DateToYmd(days: int, approx: real) returns (y: int, m: int, d: int)
    requires Fits32(days) && Near(approx, Wrap32(days + 730119))
    ensures Date(y, m, d) == DateOf(days) <==> Decodable(days, approx)
  {
    hide DateOf, CivilToDays, FloorYears, Near, Rounded, YearsByDays, Leap, Settled, Years32, Wrap32;
    ghost var t := DateOf(days);
    EpochYears();
    var offset := Wrap32(days + YearsByDays(EPOCH_YEAR - 1));
    var years := Rounded(approx);
    ghost var right := YearLeft(days, approx);
    years := Settled(offset, years);
    var rem := Wrap32(offset - Years32(years));
    var yy := years + 1;
    var leap := LeapIndex(yy);
    var mid := 12;
    if right {
      CivilOfDate(days);
      TableMonths(t.y, t.m);
      DayInYear(t);
    }
    while mid > 0
      invariant 0 <= mid <= 12 && (right ==> t.m - 1 <= mid)
    {
      if MONTHDAYS[leap][mid] != 0 && Trunc(rem, MONTHDAYS[leap][mid]) != 0 { break; }
      if right { LaterMonth(t, mid, rem); }
      mid := mid - 1;
    }
    if right { EarlierMonth(t, mid, rem); }
    if mid == 12 || mid < 0 { mid := 0; }
    y, m, d := yy, 1 + mid % 12, 1 + rem - MONTHDAYS[leap][mid];
    assert m - 1 == mid;
  }

  /** How many days of its year are before a date. */
  function DaysBefore(t: Date): int
    requires ValidDate(t)
  {
    MONTHDAYS[LeapIndex(t.y)][t.m - 1] + t.d - 1
  }

  /** What the year and the rest are worth: right, or no part of the date can be. */
  lemma YearLeft(days: int, approx: real) returns (right: bool)
    requires Fits32(days) && Near(approx, Wrap32(days + 730119))
    ensures right <==> Decodable(days, approx)
    ensures var t, offset := DateOf(days), Wrap32(days + 730119);
            var years := Settled(offset, Rounded(approx));
            var rem := Wrap32(offset - Years32(years));
            && ValidDate(t)
            && (right ==> years + 1 == t.y && rem == DaysBefore(t))
            && (!right && years + 1 == t.y ==> rem != DaysBefore(t))
  {
    hide DateOf, CivilToDays, FloorYears, Near, Rounded, YearsByDays, Leap, Settled, Years32, Wrap32;
    var t := DateOf(days);
    CivilOfDate(days);
    FromYearOne(days);
    var offset := days + 730119;
    if offset > INT32_MAX {
      OffsetWraps(days, approx);
      return false;
    }
    assert Wrap32(offset) == offset;
    YearOfOffset(t);
    RoundedYear(offset, approx, t.y - 1);
    if YearsByDays(Rounded(approx)) > INT32_MAX {
      YearWraps(t, offset, Rounded(approx));
      return false;
    }
    NothingWraps(t, offset, Rounded(approx));
    YearSettled(t, offset, Rounded(approx));
    right := Slip(t.y - 1) == 0;
  }

  lemma LaterMonth(t: Date, mid: int, rem: int)
    requires ValidDate(t) && 0 < mid <= 12 && t.m - 1 <= mid && rem == MONTHDAYS[LeapIndex(t.y)][t.m - 1] + t.d - 1
    requires MONTHDAYS[LeapIndex(t.y)][mid] > 0 ==> Trunc(rem, MONTHDAYS[LeapIndex(t.y)][mid]) == 0
    ensures t.m - 1 < mid
  {
    var x := MONTHDAYS[LeapIndex(t.y)][mid];
    assert x > 0;
    if t.m - 1 == mid { DivAtLeast(rem, x); }
  }

  lemma DivAtLeast(a: int, b: int)
    requires 0 < b <= a
    ensures a / b >= 1
  {
  }

  lemma DivBelow(a: int, b: int)
    requires 0 <= a < b
    ensures a / b == 0
  {
  }

  lemma EarlierMonth(t: Date, mid: int, rem: int)
    requires ValidDate(t) && t.m - 1 <= mid <= 12 && rem == MONTHDAYS[LeapIndex(t.y)][t.m - 1] + t.d - 1
    requires mid == 0 || (MONTHDAYS[LeapIndex(t.y)][mid] > 0 && Trunc(rem, MONTHDAYS[LeapIndex(t.y)][mid]) != 0)
    ensures mid == t.m - 1
  {
    DayInYear(t);
    if mid > t.m - 1 {
      TableGrows(t, mid);
      DivBelow(rem, MONTHDAYS[LeapIndex(t.y)][mid]);
    }
  }

  lemma TableGrows(t: Date, mid: int)
    requires ValidDate(t) && t.m - 1 < mid <= 12
    ensures MONTHDAYS[LeapIndex(t.y)][mid] > MONTHDAYS[LeapIndex(t.y)][t.m - 1] + t.d - 1
  {
  }

  /** Before year 1 the table-driven decoding mostly goes wrong: the day before year 1 comes
      out as the 30th, not the 31st, of December of year 0, whatever the quotient. */
  method BeforeYearOneDiffers(approx: real) returns (y: int, m: int, d: int)
    requires Near(approx, -1)
    ensures Date(y, m, d) != Date(0, 12, 31) == DateOf(-730120)
  {
    y, m, d := DateToYmd(-730120, approx);
    assert CivilToDays(0, 12, 31) == -730120;
    DateOfCivil(Date(0, 12, 31));
  }

  /** The last 32-bit day numbers come out wrong: those whose offset no longer fits, and
      before them those whose rounded year starts beyond 32 bits. */
  method LastDaysDiffer(approx: real) returns (y: int, m: int, d: int, y': int, m': int, d': int)
    requires Near(approx, Wrap32(INT32_MAX + 730119))
    ensures Date(y, m, d) != DateOf(INT32_MAX) && Date(y', m', d') != DateOf(INT32_MAX - 730119)
  {
    hide DateOf, Leap;
    y, m, d := DateToYmd(INT32_MAX, approx);
    var exact := INT32_MAX as real / 365.2425;
    assert exact > 5879610.5 && exact < 5879611.0;
    assert Rounded(exact) == 5879611 && YearsByDays(5879611) > INT32_MAX;
    y', m', d' := DateToYmd(INT32_MAX - 730119, exact);
  }
}
