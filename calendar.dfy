/**
 * The part of JavaScript's `Date` that the date helper and the user statistics
 * rely on: proleptic Gregorian calendar dates with a time of day, the
 * `new Date(year, month, day)` constructor with its roll-over of out-of-range
 * months and days, and the time value (milliseconds since 1 January 1970) that
 * dates are compared by. Months are 0-based, as in JavaScript. Every time value
 * is read in one fixed local zone.
 */
module Calendar {

  const MsPerDay: int := 86_400_000

  /** The Gregorian rule JavaScript's `Date` follows: 1900 is not a leap year, 2000 is. */
  predicate IsGregorianLeapYear(y: int) {
    y % 4 == 0 && (y % 100 != 0 || y % 400 == 0)
  }

  /** The length of month `m` (0 = January) of year `y` in the calendar `Date` uses. */
  function DaysInMonth(y: int, m: int): (n: int)
    requires 0 <= m < 12
    ensures 28 <= n <= 31
    ensures n == 29 <==> m == 1 && IsGregorianLeapYear(y)
  {
    if m == 1 then (if IsGregorianLeapYear(y) then 29 else 28)
    else if m == 3 || m == 5 || m == 8 || m == 10 then 30
    else 31
  }

  /** A broken-down local date and time; `msOfDay` is the time of day in milliseconds. */
  datatype DateTime = DateTime(year: int, month: int, day: int, msOfDay: int) {
    predicate Valid() {
      0 <= month < 12 && 1 <= day <= DaysInMonth(year, month) && 0 <= msOfDay < MsPerDay
    }
  }

  /** A JavaScript `Date` always holds a normalised calendar date. */
  type Date = d: DateTime | d.Valid() witness DateTime(1970, 0, 1, 0)

  /** The year the `Date` constructor uses: a year argument from 0 to 99 means 1900 to 1999. */
  function FullYear(y: int): int {
    if 0 <= y <= 99 then 1900 + y else y
  }

  /** The month after month `m` of year `y`. */
  function NextMonth(y: int, m: int): (int, int)
    requires 0 <= m < 12
  {
    if m == 11 then (y + 1, 0) else (y, m + 1)
  }

  /** The month before month `m` of year `y`. */
  function PrevMonth(y: int, m: int): (int, int)
    requires 0 <= m < 12
  {
    if m == 0 then (y - 1, 11) else (y, m - 1)
  }

  /**
   * Midnight of day `d` counted from the first of month `m` of year `y`: a day
   * past the end of the month runs into the following months, a day below 1
   * runs back into the preceding ones.
   */
  function RollDay(y: int, m: int, d: int): (r: Date)
    requires 0 <= m < 12
    ensures 1 <= d <= DaysInMonth(y, m) ==> r == DateTime(y, m, d, 0)
    ensures r.msOfDay == 0
    decreases if d < 1 then 1 - d else 0, if d < 1 then 0 else d
  {
    if d < 1 then
      var (py, pm) := PrevMonth(y, m);
      RollDay(py, pm, d + DaysInMonth(py, pm))
    else if d <= DaysInMonth(y, m) then
      DateTime(y, m, d, 0)
    else
      var (ny, nm) := NextMonth(y, m);
      RollDay(ny, nm, d - DaysInMonth(y, m))
  }

  /**
   * `new Date(y, m, d)`: the year is widened by `FullYear`, the month is taken
   * modulo 12 with the overflow carried into the year, and the day rolls over
   * as in `RollDay`.
   */
  function NewDate(y: int, m: int, d: int): (r: Date)
    ensures 0 <= m < 12 && 1 <= d <= DaysInMonth(FullYear(y), m) ==> r == DateTime(FullYear(y), m, d, 0)
  {
    RollDay(FullYear(y) + m / 12, m % 12, d)
  }

  // ---------------------------------------------------------------------------
  // Time values

  /** The number of leap years in [0, y). */
  function LeapYearsBefore(y: int): int {
    (y + 3) / 4 - (y + 99) / 100 + (y + 399) / 400
  }

  /** Days from 1 January of year 0 to 1 January of year `y`. */
  function DaysBeforeYear(y: int): int {
    365 * y + LeapYearsBefore(y)
  }

  /** Days from 1 January of year `y` to the first of month `m` (12 = the next 1 January). */
  function DaysBeforeMonth(y: int, m: int): int
    requires 0 <= m <= 12
  {
    [0, 31, 59, 90, 120, 151, 181, 212, 243, 273, 304, 334, 365][m]
    + (if m >= 2 && IsGregorianLeapYear(y) then 1 else 0)
  }

  /** The day number of day `d` of month `m` of year `y`, 1 January 1970 being day 0. */
  function DayNumber(y: int, m: int, d: int): int
    requires 0 <= m < 12
  {
    DaysBeforeYear(y) + DaysBeforeMonth(y, m) + d - 1 - DaysBeforeYear(1970)
  }

  /** `Date.prototype.valueOf`: milliseconds since midnight, 1 January 1970. */
  function TimeValue(t: Date): int {
    DayNumber(t.year, t.month, t.day) * MsPerDay + t.msOfDay
  }

  /** `a` comes before `b` field by field: year, month, day, then time of day. */
  predicate Precedes(a: DateTime, b: DateTime) {
    || a.year < b.year
    || (a.year == b.year && a.month < b.month)
    || (a.year == b.year && a.month == b.month && a.day < b.day)
    || (a.year == b.year && a.month == b.month && a.day == b.day && a.msOfDay < b.msOfDay)
  }

  /** Counting multiples of `k` below a bound: stepping the bound past `y` adds one exactly when `k` divides `y`. */
  lemma MultiplesStep(y: int, k: int)
    requires k == 4 || k == 100 || k == 400
    ensures (y + k) / k == (y + k - 1) / k + (if y % k == 0 then 1 else 0)
  {
    if k == 4 {
      assert (y + 4) / 4 == (y + 3) / 4 + (if y % 4 == 0 then 1 else 0);
    } else if k == 100 {
      assert (y + 100) / 100 == (y + 99) / 100 + (if y % 100 == 0 then 1 else 0);
    } else {
      assert (y + 400) / 400 == (y + 399) / 400 + (if y % 400 == 0 then 1 else 0);
    }
  }

  /** A multiple of 400 is a multiple of 100. */
  lemma QuadCenturyIsCentury(y: int)
    requires y % 400 == 0
    ensures y % 100 == 0
  {
    var m := 4 * (y / 400);
    assert y == 100 * m;
  }

  /** A multiple of 100 is a multiple of 4. */
  lemma CenturyIsLeapCandidate(y: int)
    requires y % 100 == 0
    ensures y % 4 == 0
  {
    var m := 25 * (y / 100);
    assert y == 4 * m;
  }

  /** Moving to the next year adds one leap year exactly when the year itself is one. */
  lemma LeapYearsStep(y: int)
    ensures LeapYearsBefore(y + 1) == LeapYearsBefore(y) + (if IsGregorianLeapYear(y) then 1 else 0)
  {
    MultiplesStep(y, 4);
    MultiplesStep(y, 100);
    MultiplesStep(y, 400);
    if y % 400 == 0 {
      QuadCenturyIsCentury(y);
    }
    if y % 100 == 0 {
      CenturyIsLeapCandidate(y);
    }
  }

  /** The first of the next month is as many days on as the month is long. */
  lemma FirstOfNextMonth(y: int, m: int)
    requires 0 <= m < 12
    ensures var (ny, nm) := NextMonth(y, m);
            DayNumber(ny, nm, 1) == DayNumber(y, m, 1) + DaysInMonth(y, m)
  {
    if m == 11 {
      LeapYearsStep(y);
    }
  }

  /**
   * The roll-over agrees with the arithmetic of ECMAScript's MakeDay: day `d`
   * of a month is `d - 1` days after its first.
   */
  lemma {:induction false} RollDayNumber(y: int, m: int, d: int)
    requires 0 <= m < 12
    ensures var r := RollDay(y, m, d);
            DayNumber(r.year, r.month, r.day) == DayNumber(y, m, 1) + d - 1
    decreases if d < 1 then 1 - d else 0, if d < 1 then 0 else d
  {
    if d < 1 {
      var (py, pm) := PrevMonth(y, m);
      assert RollDay(y, m, d) == RollDay(py, pm, d + DaysInMonth(py, pm));
      RollDayNumber(py, pm, d + DaysInMonth(py, pm));
      FirstOfNextMonth(py, pm);
      assert NextMonth(py, pm) == (y, m);
    } else if d <= DaysInMonth(y, m) {
    } else {
      var (ny, nm) := NextMonth(y, m);
      assert RollDay(y, m, d) == RollDay(ny, nm, d - DaysInMonth(y, m));
      RollDayNumber(ny, nm, d - DaysInMonth(y, m));
      FirstOfNextMonth(y, m);
    }
  }

  /** `new Date(y, m, d)` has the time value ECMAScript's MakeDay and MakeDate give. */
  lemma NewDateTimeValue(y: int, m: int, d: int)
    ensures TimeValue(NewDate(y, m, d))
            == (DayNumber(FullYear(y) + m / 12, m % 12, 1) + d - 1) * MsPerDay
  {
    RollDayNumber(FullYear(y) + m / 12, m % 12, d);
  }

  /** The first day of the month with running index `i` (12 * year + month). */
  function MonthStart(i: int): int {
    DayNumber(i / 12, i % 12, 1)
  }

  lemma {:induction false} MonthStartMonotone(i: int, j: int)
    requires i < j
    ensures MonthStart(i) + DaysInMonth(i / 12, i % 12) <= MonthStart(j)
    decreases j - i
  {
    var y, m := i / 12, i % 12;
    assert i == 12 * y + m && 0 <= m < 12;
    var (ny, nm) := NextMonth(y, m);
    assert (i + 1) / 12 == ny && (i + 1) % 12 == nm;
    FirstOfNextMonth(y, m);
    assert MonthStart(i + 1) == MonthStart(i) + DaysInMonth(y, m);
    if i + 1 < j {
      MonthStartMonotone(i + 1, j);
    }
  }

  /** Day numbers of valid dates increase with the calendar order. */
  lemma DayNumberOrder(a: Date, b: Date)
    requires a.year < b.year || (a.year == b.year && a.month < b.month)
    ensures DayNumber(a.year, a.month, a.day) < DayNumber(b.year, b.month, b.day)
  {
    var i, j := 12 * a.year + a.month, 12 * b.year + b.month;
    assert i / 12 == a.year && i % 12 == a.month;
    assert j / 12 == b.year && j % 12 == b.month;
    MonthStartMonotone(i, j);
  }

  /** Comparing time values is comparing dates field by field. */
  lemma TimeValueOrder(a: Date, b: Date)
    ensures TimeValue(a) < TimeValue(b) <==> Precedes(a, b)
  {
    if a.year < b.year || (a.year == b.year && a.month < b.month) {
      DayNumberOrder(a, b);
    } else if b.year < a.year || (a.year == b.year && b.month < a.month) {
      DayNumberOrder(b, a);
    }
  }

  /** Two dates with the same time value are the same date. */
  lemma TimeValueInjective(a: Date, b: Date)
    requires TimeValue(a) == TimeValue(b)
    ensures a == b
  {
    TimeValueOrder(a, b);
    TimeValueOrder(b, a);
  }

  /**
   * A date lies in the window `[new Date(y, m, 1), new Date(y, m + 1, 1))`
   * exactly when it falls in month `m` of year `FullYear(y)`.
   */
  lemma MonthWindow(c: Date, y: int, m: int)
    requires 0 <= m < 12
    ensures var lo, hi := NewDate(y, m, 1), NewDate(y, m + 1, 1);
            TimeValue(lo) <= TimeValue(c) < TimeValue(hi) <==> c.year == FullYear(y) && c.month == m
  {
    var lo, hi := NewDate(y, m, 1), NewDate(y, m + 1, 1);
    assert lo == DateTime(FullYear(y), m, 1, 0);
    var (ny, nm) := NextMonth(FullYear(y), m);
    assert (m + 1) / 12 + FullYear(y) == ny && (m + 1) % 12 == nm;
    assert hi == DateTime(ny, nm, 1, 0);
    TimeValueOrder(c, lo);
    TimeValueOrder(c, hi);
  }
}
