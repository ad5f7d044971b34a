/** The proleptic Gregorian calendar on day numbers, as pandas' DatetimeIndex
    accessors (`dayofweek`, `year`, `month`, `day`, `weekofyear`) and the
    anchored offset `Week(weekday=k)` see it. Day 0 is 0001-01-01, a Monday. */
module Dates {

  /** A date at day granularity: days since 0001-01-01. */
  type Day = int

  datatype Civil = Civil(year: int, month: int, day: int)

  /** pandas `dayofweek`: Monday = 0 .. Sunday = 6. */
  function Weekday(d: Day): (w: int)
    ensures 0 <= w < 7
    ensures (d - w) % 7 == 0
  {
    d % 7
  }

  /** The Monday that begins the Monday-to-Sunday week holding `d`. */
  function WeekMonday(d: Day): (m: Day)
    ensures Weekday(m) == 0
    ensures m <= d < m + 7
  {
    d - Weekday(d)
  }

  predicate Leap(y: int) {
    y % 4 == 0 && (y % 100 != 0 || y % 400 == 0)
  }

  function YearLength(y: int): int {
    if Leap(y) then 366 else 365
  }

  /** Day number of January 1 of year `y`. */
  function YearStart(y: int): Day {
    365 * (y - 1) + (y - 1) / 4 - (y - 1) / 100 + (y - 1) / 400
  }

  /** Stepping up to `y` raises `y / 4`, `y / 100` and `y / 400` by one exactly
      when the divisor divides `y`. */
  lemma DivStep4(y: int)
    ensures y / 4 == (y - 1) / 4 + (if y % 4 == 0 then 1 else 0)
  {
  }

  lemma DivStep100(y: int)
    ensures y / 100 == (y - 1) / 100 + (if y % 100 == 0 then 1 else 0)
  {
  }

  lemma DivStep400(y: int)
    ensures y / 400 == (y - 1) / 400 + (if y % 400 == 0 then 1 else 0)
  {
  }

  /** Leap days counted by the three terms of `YearStart` add up to `YearLength`. */
  lemma LeapTerms(y: int)
    ensures YearLength(y) == 365 + (if y % 4 == 0 then 1 else 0) - (if y % 100 == 0 then 1 else 0)
                                 + (if y % 400 == 0 then 1 else 0)
  {
    if y % 400 == 0 {
      assert y == 100 * (4 * (y / 400));
      assert y == 4 * (100 * (y / 400));
    } else if y % 100 == 0 {
      assert y == 4 * (25 * (y / 100));
    }
  }

  lemma YearStartStep(y: int)
    ensures YearStart(y + 1) == YearStart(y) + YearLength(y)
  {
    DivStep4(y);
    DivStep100(y);
    DivStep400(y);
    LeapTerms(y);
    assert YearStart(y + 1) == 365 * y + y / 4 - y / 100 + y / 400;
  }

  lemma {:induction false} YearStartMonotone(a: int, b: int)
    requires a <= b
    ensures YearStart(a) + 365 * (b - a) <= YearStart(b)
    ensures YearStart(b) <= YearStart(a) + 366 * (b - a)
    decreases b - a
  {
    if a < b {
      YearStartMonotone(a, b - 1);
      YearStartStep(b - 1);
    }
  }

  /** 400 years hold 146097 days: `400 * YearStart(y)` stays within a few hundred
      days of `146097 * (y - 1)`. */
  lemma YearStartScaled(y: int)
    ensures 146097 * (y - 1) - 591 <= 400 * YearStart(y) <= 146097 * (y - 1) + 288
  {
    var x := y - 1;
    var a, b, c := x % 4, x % 100, x % 400;
    assert x == 4 * (x / 4) + a;
    assert x == 100 * (x / 100) + b;
    assert x == 400 * (x / 400) + c;
    assert b == 4 * ((x / 4) - 25 * (x / 100)) + a;
    assert c == 100 * ((x / 100) - 4 * (x / 400)) + b;
    assert (x / 4) - 25 * (x / 100) <= 24;
    assert (x / 100) - 4 * (x / 400) <= 3;
  }

  /** First guess at the year holding day `d`: never past it, at most one year short. */
  function EstimateYear(d: Day): (y: int)
    ensures YearStart(y) <= d < YearStart(y + 2)
  {
    var y := d * 400 / 146097 + 1;
    YearStartScaled(y);
    YearStartStep(y);
    YearStartStep(y + 1);
    y
  }

  /** The calendar year holding day `d` (pandas `year`). */
  function YearOf(d: Day): (y: int)
    ensures YearStart(y) <= d < YearStart(y + 1)
    ensures d - YearStart(y) < YearLength(y)
  {
    var y := EstimateYear(d);
    YearStartStep(y);
    YearStartStep(y + 1);
    if YearStart(y + 1) <= d then y + 1 else y
  }

  /** Years are consecutive intervals of days, so the year is determined by the bracket. */
  lemma YearOfUnique(d: Day, y: int)
    requires YearStart(y) <= d < YearStart(y + 1)
    ensures YearOf(d) == y
  {
    var z := YearOf(d);
    if z < y {
      YearStartMonotone(z + 1, y);
    } else if y < z {
      YearStartMonotone(y + 1, z);
    }
  }

  lemma YearOfMonotone(d: Day, e: Day)
    requires d <= e
    ensures YearOf(d) <= YearOf(e)
  {
    var y, z := YearOf(d), YearOf(e);
    if z < y {
      YearStartMonotone(z + 1, y);
    }
  }

  /** Days in the year before the first of month `m` (1..13). */
  function DaysBeforeMonth(m: int, leap: bool): int
    requires 1 <= m <= 13
  {
    var common := [0, 31, 59, 90, 120, 151, 181, 212, 243, 273, 304, 334, 365][m - 1];
    if leap && m > 2 then common + 1 else common
  }

  function MonthLength(m: int, leap: bool): int
    requires 1 <= m <= 12
  {
    DaysBeforeMonth(m + 1, leap) - DaysBeforeMonth(m, leap)
  }

  lemma DaysBeforeMonthIncreasing(m: int, n: int, leap: bool)
    requires 1 <= m < n <= 13
    ensures DaysBeforeMonth(m, leap) + 28 <= DaysBeforeMonth(n, leap)
  {
  }

  /** The month (from `m` on) in which 0-based day-of-year `o` falls. */
  function MonthFrom(o: int, leap: bool, m: int): (r: int)
    requires 1 <= m <= 12
    requires DaysBeforeMonth(m, leap) <= o < DaysBeforeMonth(13, leap)
    ensures m <= r <= 12
    ensures DaysBeforeMonth(r, leap) <= o < DaysBeforeMonth(r + 1, leap)
    decreases 12 - m
  {
    if m == 12 || o < DaysBeforeMonth(m + 1, leap) then m else MonthFrom(o, leap, m + 1)
  }

  lemma MonthFromUnique(o: int, leap: bool, m: int)
    requires 1 <= m <= 12
    requires DaysBeforeMonth(m, leap) <= o < DaysBeforeMonth(m + 1, leap)
    ensures MonthFrom(o, leap, 1) == m
  {
    var r := MonthFrom(o, leap, 1);
    if r < m {
      DaysBeforeMonthIncreasing(r + 1, m, leap);
    } else if m < r {
      DaysBeforeMonthIncreasing(m + 1, r, leap);
    }
  }

  predicate ValidCivil(c: Civil) {
    1 <= c.month <= 12 && 1 <= c.day <= MonthLength(c.month, Leap(c.year))
  }

  /** Day number of a calendar date. */
  function FromCivil(c: Civil): Day
    requires ValidCivil(c)
  {
    YearStart(c.year) + DaysBeforeMonth(c.month, Leap(c.year)) + c.day - 1
  }

  /** Year, month and day of month of a day number (pandas `year`, `month`, `day`). */
  function ToCivil(d: Day): (c: Civil)
    ensures ValidCivil(c)
    ensures FromCivil(c) == d
  {
    var y := YearOf(d);
    YearStartStep(y);
    var o := d - YearStart(y);
    var m := MonthFrom(o, Leap(y), 1);
    Civil(y, m, o - DaysBeforeMonth(m, Leap(y)) + 1)
  }

  lemma {:induction false} CivilRoundTrip(c: Civil)
    requires ValidCivil(c)
    ensures ToCivil(FromCivil(c)) == c
  {
    var d := FromCivil(c);
    var leap := Leap(c.year);
    DaysBeforeMonthIncreasing(c.month, 13, leap);
    YearStartStep(c.year);
    YearOfUnique(d, c.year);
    MonthFromUnique(d - YearStart(c.year), leap, c.month);
  }

  function DayOfMonth(d: Day): (r: int)
    ensures 1 <= r <= 31
  {
    ToCivil(d).day
  }

  function MonthOf(d: Day): (r: int)
    ensures 1 <= r <= 12
  {
    ToCivil(d).month
  }

  /** 1-based ordinal day within its year. */
  function DayOfYear(d: Day): (r: int)
    ensures 1 <= r <= YearLength(YearOf(d))
  {
    d - YearStart(YearOf(d)) + 1
  }

  /** ISO 8601 week-numbering year of the week starting on Monday `m`: the calendar year of its Thursday. */
  function MondayIsoYear(m: Day): int {
    YearOf(m + 3)
  }

  /** ISO 8601 week number of the week starting on Monday `m`, counted from its Thursday. */
  function MondayIsoWeek(m: Day): (w: int)
    ensures 1 <= w <= 53
  {
    (DayOfYear(m + 3) - 1) / 7 + 1
  }

  /** The ISO 8601 week-numbering year of `d`. */
  function IsoYear(d: Day): int {
    MondayIsoYear(WeekMonday(d))
  }

  /** pandas `weekofyear`: the ISO 8601 week number of `d`. */
  function IsoWeek(d: Day): (w: int)
    ensures 1 <= w <= 53
  {
    MondayIsoWeek(WeekMonday(d))
  }

  /** Monday of ISO week 1 of year `y`: the Monday of the week holding January 4. */
  function IsoWeekOneMonday(y: int): Day {
    WeekMonday(YearStart(y) + 3)
  }

  /** Two Thursdays, the second no more than six days after January 1 (`ys`):
      whole weeks between them are the whole weeks from January 1. */
  lemma ThursdayWeeks(thu: Day, t1: Day, ys: Day)
    requires thu % 7 == 3 && t1 % 7 == 3
    requires ys <= t1 <= ys + 6 && ys <= thu
    ensures thu == t1 + 7 * ((thu - ys) / 7)
  {
    var k := thu / 7 - t1 / 7;
    assert thu - ys == 7 * k + (t1 - ys);
    DivBySeven(thu - ys, k, t1 - ys);
  }

  lemma DivBySeven(x: int, q: int, r: int)
    requires x == 7 * q + r && 0 <= r < 7
    ensures x / 7 == q
  {
  }

  lemma MondayPlusThree(m: Day)
    requires Weekday(m) == 0
    ensures (m + 3) % 7 == 3
  {
  }

  lemma IsoWeekFormula(d: Day)
    ensures IsoWeek(d) == (WeekMonday(d) + 3 - YearStart(IsoYear(d))) / 7 + 1
    ensures YearStart(IsoYear(d)) <= WeekMonday(d) + 3
  {
  }

  /** ISO 8601 defines week w of ISO year Y as starting 7(w - 1) days after the
      Monday of the week that holds January 4 of Y. */
  lemma IsoWeekMonday(d: Day)
    ensures WeekMonday(d) == IsoWeekOneMonday(IsoYear(d)) + 7 * (IsoWeek(d) - 1)
  {
    var y := IsoYear(d);
    IsoWeekFormula(d);
    MondayPlusThree(WeekMonday(d));
    MondayPlusThree(IsoWeekOneMonday(y));
    ThursdayWeeks(WeekMonday(d) + 3, IsoWeekOneMonday(y) + 3, YearStart(y));
  }

  /** The week holding January 4 is week 1 of its year. */
  lemma IsoWeekOfJanuary4(y: int)
    ensures IsoWeek(YearStart(y) + 3) == 1
    ensures IsoYear(YearStart(y) + 3) == y
  {
    var m := WeekMonday(YearStart(y) + 3);
    var thu := m + 3;
    assert YearStart(y) <= thu <= YearStart(y) + 6;
    YearStartStep(y);
    YearOfUnique(thu, y);
    assert MondayIsoYear(m) == y;
    DivBySeven(thu - YearStart(y), 0, thu - YearStart(y));
    assert MondayIsoWeek(m) == 1;
  }

  /** Days of the same Monday-to-Sunday week share their ISO week number. */
  lemma IsoWeekPerWeek(d: Day, e: Day)
    requires WeekMonday(d) == WeekMonday(e)
    ensures IsoWeek(d) == IsoWeek(e) && IsoYear(d) == IsoYear(e)
  {
  }

  /** Two Mondays, each within three days of its own January 1, at least 365 days apart. */
  lemma MondaysAYearApart(a: Day, b: Day, ya: Day, yb: Day)
    requires a % 7 == 0 && b % 7 == 0
    requires ya <= a + 3 <= ya + 6 && yb <= b + 3 <= yb + 6
    requires ya + 365 <= yb
    ensures a + 364 <= b
  {
    var k := (b - a) / 7;
    assert b - a == 7 * k;
  }

  /** Week 1 of a later ISO year starts at least 52 weeks after week 1 of an earlier one. */
  lemma WeekOneMondaysApart(y: int, z: int)
    requires y < z
    ensures IsoWeekOneMonday(y) + 364 <= IsoWeekOneMonday(z)
  {
    YearStartMonotone(y, z);
    MondaysAYearApart(IsoWeekOneMonday(y), IsoWeekOneMonday(z), YearStart(y), YearStart(z));
  }

  lemma IsoYearMonotone(m: Day, n: Day)
    requires m <= n
    ensures MondayIsoYear(m) <= MondayIsoYear(n)
  {
    YearOfMonotone(m + 3, n + 3);
  }

  /** Two Mondays less than 52 weeks apart, each `7 * (w - 1)` days after the
      week-1 Monday of its ISO year, have different `w`. */
  lemma NoSharedWeekNumber(md: Day, me: Day, y: int, z: int, a: Day, b: Day, wd: int, we: int)
    requires md == a + 7 * (wd - 1) && me == b + 7 * (we - 1)
    requires y <= z && (y == z ==> a == b) && (y < z ==> a + 364 <= b)
    requires md < me < md + 364
    ensures wd != we
  {
  }

  /** Two weeks less than 52 weeks apart never share an ISO week number. */
  lemma IsoWeekDistinctWithinYear(d: Day, e: Day)
    requires WeekMonday(d) < WeekMonday(e) < WeekMonday(d) + 364
    ensures IsoWeek(d) != IsoWeek(e)
  {
    var y, z := IsoYear(d), IsoYear(e);
    IsoYearMonotone(WeekMonday(d), WeekMonday(e));
    IsoWeekMonday(d);
    IsoWeekMonday(e);
    if y < z {
      WeekOneMondaysApart(y, z);
    }
    NoSharedWeekNumber(WeekMonday(d), WeekMonday(e), y, z, IsoWeekOneMonday(y), IsoWeekOneMonday(z),
                       IsoWeek(d), IsoWeek(e));
  }

  /** Whole weeks after a Monday are Mondays. */
  lemma MondayShift(m: Day, r: int)
    requires Weekday(m) == 0
    ensures Weekday(m + 7 * r) == 0 && WeekMonday(m + 7 * r) == m + 7 * r
  {
    assert m == 7 * (m / 7);
    DivBySeven(m + 7 * r, m / 7 + r, 0);
  }

  /** Rows `r1` < `r2` of a run of weeks from Monday `start`, less than 52 rows
      apart, have different ISO week numbers. */
  lemma RunWeeksDistinct(start: Day, r1: int, r2: int)
    requires Weekday(start) == 0
    requires r1 < r2 < r1 + 52
    ensures IsoWeek(start + 7 * r1) != IsoWeek(start + 7 * r2)
  {
    var d, e := start + 7 * r1, start + 7 * r2;
    MondayShift(start, r1);
    MondayShift(start, r2);
    assert WeekMonday(d) == d && WeekMonday(e) == e;
    IsoWeekDistinctWithinYear(d, e);
  }

  /** pandas `date + Week(weekday=k)`: an anchored offset moves to the first
      weekday `k` strictly after `date` (a date already on weekday `k` moves a full week). */
  function AddAnchoredWeek(d: Day, k: int): (r: Day)
    requires 0 <= k < 7
    ensures d < r <= d + 7
    ensures Weekday(r) == k
    ensures forall e :: d < e < r ==> Weekday(e) != k
  {
    if Weekday(d) == k then d + 7 else d + (k - Weekday(d)) % 7
  }

  /** `calendar.day_name`, Monday first. */
  const DayNames: seq<string> :=
    ["Monday", "Tuesday", "Wednesday", "Thursday", "Friday", "Saturday", "Sunday"]

  /** `calendar.day_abbr`, Monday first. */
  const DayAbbrs: seq<string> := ["Mon", "Tue", "Wed", "Thu", "Fri", "Sat", "Sun"]

  /** `month_name()`, January first. */
  const MonthNames: seq<string> :=
    ["January", "February", "March", "April", "May", "June", "July",
     "August", "September", "October", "November", "December"]

  /** `strftime("%b")` in the C locale, January first. */
  const MonthAbbrs: seq<string> :=
    ["Jan", "Feb", "Mar", "Apr", "May", "Jun", "Jul", "Aug", "Sep", "Oct", "Nov", "Dec"]
}
