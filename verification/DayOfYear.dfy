/**
 Day numbers to dates, as the satellite catalogue reads them: the unpacking loops, their
 agreement with the Julian day formula, and with the day count used for sidereal time.
 */
module DayOfYear {
  import opened Wrappers
  import opened Calendar

  const MONTH_ENDS: seq<nat> := [31, 59, 90, 120, 151, 181, 212, 243, 273, 304, 334, 365]

  /** The month table's own idea of a leap year. */
  predicate TableLeap(y: int) { y % 4 == 0 && y % 1000 != 0 && y % 400 != 0 }

  /** Days from the start of the year to the end of month nm. */
  function WychKd(ng: int, nm: int): nat
    requires 1 <= nm <= 12
  {
    MONTH_ENDS[nm - 1] + (if TableLeap(ng) && nm > 1 then 1 else 0)
  }

  /** The year loop's idea of a year: every fourth one is long. */
  function LoopYearLength(y: int): nat { if y % 4 == 0 then 366 else 365 }

  /** Where the year loop stops: the year, and the day number left in it. */
  function Landing(epoch: int, ns: int): (int, int)
    decreases if ns > 0 then ns else 0
  {
    if ns > LoopYearLength(epoch) then Landing(epoch + 1, ns - LoopYearLength(epoch)) else (epoch, ns)
  }

  /** No month of the table reaches day r: the month loop runs past its twelve entries. */
  predicate OverrunsTable(y: int, r: int) { r > WychKd(y, 12) }

  datatype DateTime = DateTime(year: int, month: int, day: int, hour: int, minute: int, second: real)

  /** The unpacked date is month m, day d, by the month table. */
  ghost predicate Unpacks(y: int, r: int, m: int, d: int) {
    && 1 <= m <= 12 && r <= WychKd(y, m)
    && (m > 1 ==> r > WychKd(y, m - 1))
    && d == (if m == 1 then r else r - WychKd(y, m - 1))
  }

  /**
   DurData: None stands for the month loop reading past its table. The clock fields follow
   the day fraction exactly.
   */
  method DurData(epoch: int, ns: int, ts: real) returns (r: Option<DateTime>)
    requires 0.0 <= ts < 1.0
    ensures var (year, rest) := Landing(epoch, ns);
      if OverrunsTable(year, rest) then r.None?
      else r.Some? && r.value.year == year && Unpacks(year, rest, r.value.month, r.value.day)
    ensures r.Some? ==>
      && 0 <= r.value.hour < 24 && 0 <= r.value.minute < 60 && 0.0 <= r.value.second < 60.0
      && (r.value.hour as real) * 3600.0 + (r.value.minute as real) * 60.0 + r.value.second == ts * 86400.0
  {
    var ng, left := epoch, ns;
    while true
      invariant Landing(epoch, ns) == Landing(ng, left)
      decreases if left > 0 then left else 0
    {
      var tmp := if ng % 4 == 0 then 366 else 365;
      if left > tmp { ng, left := ng + 1, left - tmp; } else { break; }
    }
    var month, nm, nd := 1, 0, 0;
    while true
      invariant 1 <= month <= 12 && (month > 1 ==> left > WychKd(ng, month - 1))
      decreases 12 - month
    {
      if left <= WychKd(ng, month) {
        nm := month;
        nd := if month == 1 then left else left - WychKd(ng, month - 1);
        break;
      }
      month := month + 1;
      if month > 12 { return None; }
    }
    TableGrows(ng);
    var nc := ts * 24.0 * 3600.0;
    var nh := (nc / 3600.0).Floor;
    nc := nc - (nh as real) * 3600.0;
    var nmin := (nc / 60.0).Floor;
    nc := nc - (nmin as real) * 60.0;
    r := Some(DateTime(ng, nm, nd, nh, nmin, nc));
  }

  lemma TableGrows(y: int)
    ensures forall m, m' :: 1 <= m <= m' <= 12 ==> WychKd(y, m) <= WychKd(y, m')
  {
  }

  // ----- against the calendar -----

  /** How far the month table is off the calendar for day r of year y. */
  function Slip(y: int, r: int): int {
    if y % 400 == 0 && r >= 60 then 1
    else if y % 100 == 0 && y % 400 != 0 && y % 1000 != 0 && r >= 61 then -1
    else 0
  }

  /** Years from a up to b that the year loop takes for leap years and the calendar does not. */
  function FalseLeaps(a: int, b: int): nat
    decreases b - a
  {
    if a >= b then 0 else (if a % 100 == 0 && a % 400 != 0 then 1 else 0) + FalseLeaps(a + 1, b)
  }

  lemma {:induction false} TableAgainstCalendar(y: int, m: int)
    requires 1 <= m <= 12
    ensures MonthStart(y, m + 1) ==
      WychKd(y, m) + (if m == 1 || TableLeap(y) == IsLeap(y) then 0 else if IsLeap(y) then 1 else -1)
    decreases m
  {
    if m > 1 { TableAgainstCalendar(y, m - 1); } else { assert MonthStart(y, 1) == 0; }
  }

  /** The three leap rules against each other. */
  lemma LeapRules(y: int)
    ensures IsLeap(y) && !TableLeap(y) <==> y % 400 == 0
    ensures TableLeap(y) && !IsLeap(y) <==> y % 100 == 0 && y % 400 != 0 && y % 1000 != 0
    ensures LoopYearLength(y) == YearLength(y) + (if y % 100 == 0 && y % 400 != 0 then 1 else 0)
  {
    MultiplesOfFour(y);
  }

  lemma MultiplesOfFour(y: int)
    ensures y % 400 == 0 || y % 1000 == 0 || y % 100 == 0 ==> y % 4 == 0
    ensures y % 400 == 0 || y % 1000 == 0 ==> y % 100 == 0
  {
    if y % 1000 == 0 { ByHundred(y, 10 * (y / 1000)); }
    if y % 400 == 0 { ByHundred(y, 4 * (y / 400)); }
    if y % 100 == 0 { ByFour(y, y / 100); }
  }

  lemma ByHundred(y: int, t: int)
    requires y == 100 * t
    ensures y % 100 == 0
  {
  }

  lemma ByFour(y: int, t: int)
    requires y == 100 * t
    ensures y % 4 == 0
  {
    assert y == 4 * (25 * t);
  }

  lemma UnpackedDayOfYear(y: int, r: int, m: int, d: int)
    requires Unpacks(y, r, m, d)
    ensures MonthStart(y, m) + d == r + Slip(y, r)
  {
    hide IsLeap, TableLeap, MonthStart;
    LeapRules(y);
    TableGrows(y);
    JanuaryFirst(y);
    if m > 1 { TableAgainstCalendar(y, m - 1); }
    if m <= 2 { assert r <= WychKd(y, 2); } else { assert r > WychKd(y, 2); }
  }

  lemma JanuaryFirst(y: int)
    ensures MonthStart(y, 1) == 0
  {
  }

  lemma {:induction false} LandingAgainstCalendar(epoch: int, ns: int)
    requires epoch >= FIRST_YEAR
    ensures var (g, r) := Landing(epoch, ns);
      g >= epoch && r <= LoopYearLength(g) && (ns >= 1 ==> r >= 1) &&
      YearStart(g) + r == YearStart(epoch) + ns - FalseLeaps(epoch, g)
    decreases if ns > 0 then ns else 0
  {
    hide IsLeap;
    LeapRules(epoch);
    if ns > LoopYearLength(epoch) { LandingAgainstCalendar(epoch + 1, ns - LoopYearLength(epoch)); }
  }

  /** The Julian day of the unpacked date, for every start year and day number. */
  lemma UnpackedJulianDay(epoch: int, ns: int, m: int, d: int)
    requires epoch >= FIRST_YEAR
    requires var (g, r) := Landing(epoch, ns); Unpacks(g, r, m, d)
    ensures var (g, r) := Landing(epoch, ns);
      JulianDay(g, m, d) == JulianDay(epoch, 1, 1) + ns - 1 + Slip(g, r) - FalseLeaps(epoch, g)
  {
    hide JulianDay;
    var (g, r) := Landing(epoch, ns);
    LandingAgainstCalendar(epoch, ns);
    UnpackedDayOfYear(g, r, m, d);
    JulianIsDayCount(g, m, d);
    JulianIsDayCount(epoch, 1, 1);
    assert MonthStart(epoch, 1) == 0;
  }

  /** Days the year loop counts off from 1 January of a to that of g. */
  function LoopDays(a: int, g: int): int { 365 * (g - a) + (g + 3) / 4 - (a + 3) / 4 }

  /** Day r of loop year g lands there. */
  lemma {:induction false} LandsOn(a: int, g: int, r: int)
    requires a <= g && 1 <= r <= LoopYearLength(g)
    ensures Landing(a, LoopDays(a, g) + r) == (g, r)
    decreases g - a
  {
    if a < g {
      assert LoopDays(a, g) == LoopYearLength(a) + LoopDays(a + 1, g);
      LoopDaysPositive(a + 1, g);
      LandsOn(a + 1, g, r);
    }
  }

  /** And every day number from 1 on is one. */
  lemma {:induction false} LandsSomewhere(a: int, ns: int)
    requires ns >= 1
    ensures var (g, r) := Landing(a, ns); g >= a && 1 <= r <= LoopYearLength(g) && ns == LoopDays(a, g) + r
    decreases ns
  {
    if ns > LoopYearLength(a) {
      var (g, r) := Landing(a, ns);
      LandsSomewhere(a + 1, ns - LoopYearLength(a));
      assert LoopDays(a, g) == LoopYearLength(a) + LoopDays(a + 1, g);
    }
  }

  lemma LoopDaysPositive(a: int, g: int)
    requires a <= g
    ensures LoopDays(a, g) >= 0
  {
  }

  /** Century years before y that are not divisible by 400, up to a constant. */
  function ShortCenturies(y: int): int { (y + 99) / 100 - (y + 399) / 400 }

  predicate ShortCentury(y: int) { y % 100 == 0 && y % 400 != 0 }

  lemma ShortCenturyStep(y: int)
    ensures ShortCenturies(y + 1) == ShortCenturies(y) + (if ShortCentury(y) then 1 else 0)
  {
    CeilingStep(y, 100);
    CeilingStep(y, 400);
    MultiplesOfFour(y);
  }

  lemma CeilingStep(y: int, n: int)
    requires n == 100 || n == 400
    ensures (y + n) / n == (y + n - 1) / n + (if y % n == 0 then 1 else 0)
  {
  }

  lemma {:induction false} FalseLeapsCount(a: int, b: int)
    requires a <= b
    ensures FalseLeaps(a, b) == ShortCenturies(b) - ShortCenturies(a)
    ensures FalseLeaps(a, b) == 0 <==> forall y :: a <= y < b ==> !ShortCentury(y)
    decreases b - a
  {
    if a < b {
      FalseLeapsCount(a + 1, b);
      ShortCenturyStep(a);
    }
  }

  /** One short century lies between a and a year divisible by 400, exactly for a in this range. */
  lemma OneShortCentury(a: int, g: int)
    requires a <= g && g % 400 == 0
    ensures FalseLeaps(a, g) == 1 <==> g - 200 < a <= g - 100
  {
    FalseLeapsCount(a, g);
    var k, e := g / 400, g - a;
    assert g == 400 * k && a == 400 * k - e;
    assert ShortCenturies(g) == 3 * k;
    assert (a + 99) / 100 == 4 * k + (99 - e) / 100 && (a + 399) / 400 == k + (399 - e) / 400;
  }

  /**
   Unpacking day r of loop year g, counted from `epoch`, keeps the day exactly in two cases: no
   short century is passed and the month table is right for day r; or the table is a day ahead,
   on or after day 60 of a year divisible by 400, and one short century passed makes up for it.
   */
  lemma UnpackingRightExactly(epoch: int, g: int, r: int, m: int, d: int)
    requires FIRST_YEAR <= epoch <= g && 1 <= r <= LoopYearLength(g) && Unpacks(g, r, m, d)
    ensures var ns := LoopDays(epoch, g) + r;
      && Landing(epoch, ns) == (g, r)
      && (JulianDay(g, m, d) == JulianDay(epoch, 1, 1) + ns - 1 <==>
          || ((forall y :: epoch <= y < g ==> !ShortCentury(y))
              && !(g % 400 == 0 && r >= 60) && !(ShortCentury(g) && g % 1000 != 0 && r >= 61))
          || (g % 400 == 0 && r >= 60 && g - 200 < epoch <= g - 100))
  {
    hide JulianDay, ShortCentury;
    LandsOn(epoch, g, r);
    UnpackedJulianDay(epoch, LoopDays(epoch, g) + r, m, d);
    FalseLeapsCount(epoch, g);
    if g % 400 == 0 { OneShortCentury(epoch, g); }
    SlipIs(g, r);
  }

  lemma SlipIs(g: int, r: int)
    ensures Slip(g, r) ==
      if g % 400 == 0 && r >= 60 then 1 else if ShortCentury(g) && g % 1000 != 0 && r >= 61 then -1 else 0
  {
  }

  /** Within the start year: right exactly unless the month table has the year's length wrong by then. */
  lemma UnpackingRightInYear(epoch: int, ns: int, m: int, d: int)
    requires epoch >= FIRST_YEAR && 1 <= ns <= LoopYearLength(epoch) && Unpacks(epoch, ns, m, d)
    ensures JulianDay(epoch, m, d) == JulianDay(epoch, 1, 1) + ns - 1
      <==> !(epoch % 400 == 0 && ns >= 60) && !(ShortCentury(epoch) && epoch % 1000 != 0 && ns >= 61)
  {
    hide JulianDay;
    UnpackingRightExactly(epoch, epoch, ns, m, d);
  }

  /** The table is overrun exactly by day 366 of a year divisible by 400 or by 1000. */
  lemma OverrunExactly(epoch: int, ns: int)
    requires epoch >= FIRST_YEAR
    ensures var (g, r) := Landing(epoch, ns);
      OverrunsTable(g, r) <==> r == 366 && (g % 400 == 0 || g % 1000 == 0)
  {
    LandingAgainstCalendar(epoch, ns);
    MultiplesOfFour(Landing(epoch, ns).0);
  }

  /** The date is a real one exactly unless it is day 60 of a year the table wrongly lengthens. */
  lemma UnpackedDateValid(y: int, r: int, m: int, d: int)
    requires Unpacks(y, r, m, d) && r >= 1
    ensures ValidDate(y, m, d) <==> !(r == 60 && TableLeap(y) && !IsLeap(y))
  {
    TableGrows(y);
    TableAgainstCalendar(y, m);
    if m > 1 { TableAgainstCalendar(y, m - 1); } else { assert MonthStart(y, 1) == 0; }
    assert MonthStart(y, m + 1) == MonthStart(y, m) + DaysIn(y, m);
    MultiplesOfFour(y);
    if m == 2 { assert WychKd(y, 1) == 31; }
  }

  /** Away from century years everything holds: a valid date, on the right day. */
  lemma AwayFromCenturies(epoch: int, ns: int, m: int, d: int)
    requires epoch >= FIRST_YEAR && ns >= 1
    requires var (g, r) := Landing(epoch, ns);
      (forall y :: epoch <= y <= g ==> y % 100 != 0) && (OverrunsTable(g, r) || Unpacks(g, r, m, d))
    ensures var (g, r) := Landing(epoch, ns);
      && !OverrunsTable(g, r) && ValidDate(g, m, d)
      && JulianDay(g, m, d) == JulianDay(epoch, 1, 1) + ns - 1
  {
    hide JulianDay;
    var (g, r) := Landing(epoch, ns);
    LandingAgainstCalendar(epoch, ns);
    OverrunExactly(epoch, ns);
    MultiplesOfFour(g);
    NoFalseLeaps(epoch, g);
    UnpackedJulianDay(epoch, ns, m, d);
    UnpackedDateValid(g, r, m, d);
  }

  lemma {:induction false} NoFalseLeaps(a: int, b: int)
    requires forall y :: a <= y < b ==> !(y % 100 == 0 && y % 400 != 0)
    ensures FalseLeaps(a, b) == 0
    decreases b - a
  {
    if a < b { NoFalseLeaps(a + 1, b); }
  }

  // ----- the catalogue epoch -----

  /** The day count of toGmst, from the epoch it is given. */
  function Days50(epoch: real): real {
    var jy := ((epoch + 2.0e-7) * 0.001).Floor;
    var d := epoch - (jy as real) * 1000.0;
    var jy := if jy < 50 then jy + 100 else jy;
    var n := if jy < 70 then TruncDiv(jy - 72, 4) else TruncDiv(jy - 69, 4);
    (jy - 70) as real * 365.0 + 7305.0 + n as real + d
  }

  const DAYS50_ORIGIN := 2433281.5

  /** The whole-number part of the count, for year 1900 + k. */
  function Days50OfYear(k: int): int {
    (k - 70) * 365 + 7305 + (if k < 70 then TruncDiv(k - 72, 4) else TruncDiv(k - 69, 4))
  }

  /** Between 1901 and 2099 the only century year is 2000, and it is a leap year. */
  lemma OneCentury(y: int)
    requires 1901 <= y < 2100
    ensures (y % 100 == 0 <==> y == 2000) && (y % 400 == 0 <==> y == 2000)
    ensures IsLeap(y) <==> y % 4 == 0
  {
    assert y % 100 == 0 ==> y == 2000;
    assert y % 400 == 0 ==> y == 2000;
  }

  lemma Days50Step(k: int)
    requires 57 <= k < 200
    ensures Days50OfYear(k + 1) == Days50OfYear(k) + (if k % 4 == 0 then 366 else 365)
  {
    assert k == 4 * (k / 4) + k % 4;
    if k < 70 { assert k == 69 ==> k % 4 == 1; }
  }

  lemma Days50Start()
    ensures JulianDay(1957, 1, 0) == Days50OfYear(57) + 2433282
  {
  }

  lemma {:induction false} Days50YearIsJulian(k: int)
    requires 57 <= k < 200
    ensures JulianDay(1900 + k, 1, 0) == Days50OfYear(k) + 2433282
    decreases k
  {
    hide JulianDay, Days50OfYear, IsLeap;
    if k == 57 {
      Days50Start();
    } else {
      Days50YearIsJulian(k - 1);
      JulianYear(1900 + k - 1);
      Days50Step(k - 1);
      OneCentury(1900 + k - 1);
    }
  }

  /** The day count of toGmst is the Julian date, for the catalogue's years. */
  lemma Days50IsJulian(k: int, day: real)
    requires 57 <= k < 157 && 0.0 <= day < 999.9999998
    ensures Days50((k as real) * 1000.0 + day) + DAYS50_ORIGIN == JulianDate(1900 + k, 1, 1, 0.0) + day - 1.0
  {
    hide JulianDay, Days50, Days50OfYear;
    Days50YearIsJulian(k);
    JulianIsLinear(1900 + k, 1, 1);
    Days50ByYear(k, day);
  }

  /** The count splits its argument into the year and the day again. */
  lemma Days50ByYear(k: int, day: real)
    requires 57 <= k < 157 && 0.0 <= day < 999.9999998
    ensures Days50((k as real) * 1000.0 + day) == Days50OfYear(k) as real + day
  {
    var epoch := (k as real) * 1000.0 + day;
    assert k as real <= (epoch + 2.0e-7) * 0.001 < k as real + 1.0;
    hide TruncDiv;
  }

  /**
   The epoch field of a catalogue line: two year digits and the day of the year. Returns
   the Julian date stored for the satellite and the epoch handed to SDP4.
   */
  method CatalogueEpoch(field: real) returns (jd: Option<real>, epoch: real)
    requires 0.0 <= field < 100000.0
    ensures var yy := (field / 1000.0).Floor;
      var day := field - (yy as real) * 1000.0;
      var year := yy + (if yy >= 57 then 1900 else 2000);
      var (g, r) := Landing(year, day.Floor);
      && epoch == ((year - 1900) as real) * 1000.0 + day
      && (jd.None? <==> OverrunsTable(g, r))
      && (jd.Some? ==> jd.value == JulianDate(year, 1, 1, 0.0) + day - 1.0 + (Slip(g, r) - FalseLeaps(year, g)) as real)
  {
    hide JulianDay, Slip, FalseLeaps;
    var year := (field / 1000.0).Floor;
    var day := field - (year as real) * 1000.0;
    var dayNum := day.Floor;
    year := year + (if year >= 57 then 1900 else 2000);
    var r := DurData(year, dayNum, day - dayNum as real);
    epoch := ((year - 1900) as real) * 1000.0 + day;
    match r {
      case None => jd := None;
      case Some(t) =>
        UnpackedJulianDay(year, dayNum, t.month, t.day);
        var hours := t.hour as real + t.minute as real / 60.0 + t.second / 3600.0;
        jd := Some(JulianDate(t.year, t.month, t.day, hours));
    }
  }

  /** The day numbers that land on or after day 60 of 2000, by the two year digits. */
  predicate LandsLateIn2000(yy: int, n: int) {
    (yy == 0 && 60 <= n <= 366) || (yy == 99 && 425 <= n <= 731) || (yy == 98 && 790 <= n < 1000)
  }

  lemma LateLandings(yy: int, n: int)
    requires 0 <= yy < 100 && n < 1000
    ensures var (g, r) := Landing(yy + (if yy >= 57 then 1900 else 2000), n);
      && (g == 2000 && r >= 60 <==> LandsLateIn2000(yy, n))
      && (g == 2000 && r == 366 <==> (yy == 0 && n == 366) || (yy == 99 && n == 731))
  {
    var year := yy + (if yy >= 57 then 1900 else 2000);
    LandsSoon(year, n);
    if yy == 0 || yy == 99 || yy == 98 {
      if n > LoopYearLength(year) {
        assert Landing(year, n) == Landing(year + 1, n - LoopYearLength(year));
        if n - LoopYearLength(year) > LoopYearLength(year + 1) {
          var left := n - LoopYearLength(year) - LoopYearLength(year + 1);
          assert Landing(year, n) == Landing(year + 2, left);
        }
      }
    } else {
      LandingAgainstCalendar(year, n);
    }
  }

  /**
   For every epoch field (day below 999.9999998) the stored Julian date and the day count used
   for sidereal time name the same instant, exactly unless the field's day lands on or after day
   60 of 2000; there the stored date is a day late, and the one that lands on day 366 has none.
   */
  lemma EpochsAgreeExactly(yy: int, day: real)
    requires 0 <= yy < 100 && 0.0 <= day < 999.9999998
    ensures var year := yy + (if yy >= 57 then 1900 else 2000);
      var (g, r) := Landing(year, day.Floor);
      var stored := JulianDate(year, 1, 1, 0.0) + day - 1.0 + (Slip(g, r) - FalseLeaps(year, g)) as real;
      var counted := Days50(((year - 1900) as real) * 1000.0 + day) + DAYS50_ORIGIN;
      && (OverrunsTable(g, r) <==> (yy == 0 && day.Floor == 366) || (yy == 99 && day.Floor == 731))
      && (stored == counted <==> !LandsLateIn2000(yy, day.Floor))
      && (LandsLateIn2000(yy, day.Floor) ==> stored == counted + 1.0)
  {
    hide JulianDay, Days50, Landing, FalseLeaps, IsLeap, TableLeap, OverrunsTable, LandsLateIn2000;
    var year := yy + (if yy >= 57 then 1900 else 2000);
    var (g, r) := Landing(year, day.Floor);
    Days50IsJulian(year - 1900, day);
    LandingAgainstCalendar(year, day.Floor);
    LandsSoon(year, day.Floor);
    LateLandings(yy, day.Floor);
    OverrunExactly(year, day.Floor);
    forall y | year <= y < g ensures !(y % 100 == 0 && y % 400 != 0) { OneCentury(y); }
    NoFalseLeaps(year, g);
    OneCentury(g);
    MultiplesOfFour(g);
  }

  /** A day number below 1000 lands within three years. */
  lemma LandsSoon(epoch: int, ns: int)
    requires ns < 1000
    ensures epoch <= Landing(epoch, ns).0 <= epoch + 2
  {
    var e1 := LoopYearLength(epoch);
    if ns > e1 {
      assert Landing(epoch, ns) == Landing(epoch + 1, ns - e1);
      var e2 := LoopYearLength(epoch + 1);
      if ns - e1 > e2 { assert Landing(epoch + 1, ns - e1) == Landing(epoch + 2, ns - e1 - e2); }
    }
  }
}
