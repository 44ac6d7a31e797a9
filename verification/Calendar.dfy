/**
 Calendar arithmetic of the satellite catalogue: day-of-year unpacking, the Julian day
 formula, and days since 1950. Integers are unbounded, times of day are reals.
 */
module Calendar {
  /** Integer division as in C++: toward zero. */
  function TruncDiv(a: int, b: int): int
    requires b > 0
  {
    if a >= 0 then a / b else -((-a) / b)
  }

  // ----- the Gregorian calendar, counted day by day -----

  const FIRST_YEAR := -4799

  predicate IsLeap(y: int) { y % 4 == 0 && (y % 100 != 0 || y % 400 == 0) }

  function YearLength(y: int): nat { if IsLeap(y) then 366 else 365 }

  function DaysIn(y: int, m: int): nat
    requires 1 <= m <= 12
  {
    if m == 2 then (if IsLeap(y) then 29 else 28)
    else if m == 4 || m == 6 || m == 9 || m == 11 then 30 else 31
  }

  predicate ValidDate(y: int, m: int, d: int) { 1 <= m <= 12 && 1 <= d <= DaysIn(y, m) }

  /** Days from the first of January of FIRST_YEAR to that of y. */
  function YearStart(y: int): nat
    requires y >= FIRST_YEAR
    decreases y - FIRST_YEAR
  {
    if y == FIRST_YEAR then 0 else YearStart(y - 1) + YearLength(y - 1)
  }

  /** Days of y before month m. */
  function MonthStart(y: int, m: int): nat
    requires 1 <= m <= 13
    decreases m
  {
    if m == 1 then 0 else MonthStart(y, m - 1) + DaysIn(y, m - 1)
  }

  /** The count of days, the first day of FIRST_YEAR being 1. */
  function DayCount(y: int, m: int, d: int): int
    requires y >= FIRST_YEAR && 1 <= m <= 12
  {
    YearStart(y) + MonthStart(y, m) + d
  }

  function NextDay(y: int, m: int, d: int): (int, int, int)
    requires ValidDate(y, m, d)
  {
    if d < DaysIn(y, m) then (y, m, d + 1) else if m < 12 then (y, m + 1, 1) else (y + 1, 1, 1)
  }

  // ----- Julian_date -----

  /** The integer part of the formula, in the source's truncating arithmetic. */
  function JulianDay(y: int, m: int, d: int): int {
    var j := TruncDiv(m - 14, 12);
    d - 32075 + TruncDiv(1461 * (y + 4800 + j), 4) + TruncDiv(367 * (m - 2 - j * 12), 12)
      - TruncDiv(3 * TruncDiv(y + 4900 + j, 100), 4)
  }

  function JulianDate(y: int, m: int, d: int, hour: real): real {
    JulianDay(y, m, d) as real - 0.5 + hour / 24.0
  }

  /** The year term of the formula: years run from March, so that leap days come last. */
  function MarchYears(y: int): int
    requires y >= FIRST_YEAR - 1
  {
    1461 * (y + 4800) / 4 - 3 * ((y + 4900) / 100) / 4
  }

  lemma JulianByMarchYears(y: int, m: int, d: int)
    requires y >= FIRST_YEAR && 1 <= m <= 12
    ensures JulianDay(y, m, d) == d - 32075 +
      (if m <= 2 then MarchYears(y - 1) + 367 * (m + 10) / 12 else MarchYears(y) + 367 * (m - 2) / 12)
  {
    assert TruncDiv(m - 14, 12) == if m <= 2 then -1 else 0;
  }

  /** One leap day every four years. */
  lemma QuarterTerm(x: nat)
    requires x > 0
    ensures 1461 * x / 4 == 1461 * (x - 1) / 4 + 365 + (if x % 4 == 0 then 1 else 0)
  {
    assert x == 4 * (x / 4) + x % 4;
  }

  /** Less three every four centuries. */
  lemma CenturyTerm(x: nat)
    requires x > 0
    ensures 3 * (x / 100) / 4 == 3 * ((x - 1) / 100) / 4 + (if x % 100 == 0 && x / 100 % 4 != 1 then 1 else 0)
  {
    var c := x / 100;
    assert x == 100 * c + x % 100;
    if x % 100 == 0 {
      assert (x - 1) / 100 == c - 1;
      assert c == 4 * (c / 4) + c % 4;
    } else {
      assert (x - 1) / 100 == c;
    }
  }

  lemma CenturyOf(y: int)
    requires y >= FIRST_YEAR
    ensures (y + 4900) % 100 == y % 100 && (y + 4800) % 4 == y % 4
    ensures y % 100 == 0 ==> ((y + 4900) / 100 % 4 == 1 <==> y % 400 == 0)
  {
    if y % 100 == 0 {
      var t := y / 100;
      assert y == 100 * t && (y + 4900) / 100 == t + 49;
      assert y % 400 == 0 <==> t % 4 == 0;
    }
  }

  lemma MarchYearLength(y: int)
    requires y >= FIRST_YEAR
    ensures MarchYears(y) == MarchYears(y - 1) + YearLength(y)
  {
    QuarterTerm(y + 4800);
    CenturyTerm(y + 4900);
    CenturyOf(y);
    CenturiesAreFours(y);
  }

  lemma CenturiesAreFours(y: int)
    ensures y % 100 == 0 ==> y % 4 == 0
  {
    if y % 100 == 0 { assert y == 100 * (y / 100) == 4 * (25 * (y / 100)); }
  }

  lemma JulianYear(y: int)
    requires y >= FIRST_YEAR
    ensures JulianDay(y + 1, 1, 0) == JulianDay(y, 1, 0) + YearLength(y)
  {
    hide JulianDay, MarchYears, YearLength;
    JulianByMarchYears(y, 1, 0);
    JulianByMarchYears(y + 1, 1, 0);
    MarchYearLength(y);
  }

  /** Days before month m: the formula's month term, from January and from March. */
  lemma MonthTerms(y: int, m: int)
    requires 1 <= m <= 12
    ensures MonthStart(y, m) ==
      (if m <= 2 then 367 * (m + 10) / 12 - 336 else YearLength(y) - 336 + 367 * (m - 2) / 12)
    decreases m
  {
    if m > 1 { MonthTerms(y, m - 1); }
  }

  lemma JulianMonth(y: int, m: int)
    requires y >= FIRST_YEAR && 1 <= m <= 12
    ensures JulianDay(y, m, 0) == JulianDay(y, 1, 0) + MonthStart(y, m)
  {
    hide JulianDay, MarchYears, YearLength;
    JulianByMarchYears(y, m, 0);
    JulianByMarchYears(y, 1, 0);
    MarchYearLength(y);
    MonthTerms(y, m);
  }

  lemma JulianIsLinear(y: int, m: int, d: int)
    ensures JulianDay(y, m, d) == JulianDay(y, m, 0) + d
  {
  }

  lemma FirstDay()
    ensures JulianDay(FIRST_YEAR, 1, 0) == -31739 && forall y :: MonthStart(y, 1) == 0
  {
  }

  /** The formula is the day count, for every month of every year from FIRST_YEAR on. */
  lemma {:induction false} JulianIsDayCount(y: int, m: int, d: int)
    requires y >= FIRST_YEAR && 1 <= m <= 12
    ensures JulianDay(y, m, d) == DayCount(y, m, d) - 31739
    decreases y - FIRST_YEAR
  {
    hide JulianDay, YearLength, MonthStart;
    JulianIsLinear(y, m, d);
    JulianMonth(y, m);
    FirstDay();
    if y > FIRST_YEAR {
      JulianIsDayCount(y - 1, 1, 0);
      JulianYear(y - 1);
    }
  }

  /** It grows by one from each day to the next. */
  lemma JulianCountsDays(y: int, m: int, d: int)
    requires y >= FIRST_YEAR && ValidDate(y, m, d)
    ensures var (y', m', d') := NextDay(y, m, d);
      ValidDate(y', m', d') && JulianDay(y', m', d') == JulianDay(y, m, d) + 1
  {
    hide JulianDay;
    var (y', m', d') := NextDay(y, m, d);
    JulianIsDayCount(y, m, d);
    JulianIsDayCount(y', m', d');
    YearIsItsMonths(y);
  }

  lemma YearIsItsMonths(y: int)
    ensures MonthStart(y, 12) == YearLength(y) - 31 && MonthStart(y, 13) == YearLength(y)
  {
    assert MonthStart(y, 4) == (if IsLeap(y) then 91 else 90);
    assert MonthStart(y, 8) == MonthStart(y, 4) + 122;
    assert MonthStart(y, 12) == MonthStart(y, 8) + 122;
  }
}
