/**
 * The date helper `ModDate`: a date together with the year and month read from
 * it when the helper is built, and the month boundaries derived from them.
 * The month lists and the leap-year rule are the helper's own, so February of
 * a century year such as 1900 is given 29 days although the calendar that
 * `Date` follows gives it 28.
 */
module ModDates {
  import opened Calendar

  const MonthsWith30Days: seq<int> := [3, 5, 8, 10]
  const MonthsWith31Days: seq<int> := [0, 2, 4, 6, 7, 9, 11]

  /** The helper's state; `year` and `month` are set once, when it is built. */
  datatype ModDate = ModDate(dateObj: Date, year: int, month: int) {

    /** `year` and `month` are those of `dateObj`, as the constructor sets them. */
    predicate Valid() {
      year == dateObj.year && month == dateObj.month
    }

    function GetDate(): Date {
      dateObj
    }

    /** The helper's rule: divisible by 400 or by 4, which is divisibility by 4. */
    function IsLeapYear(): (r: bool)
      ensures r <==> year % 4 == 0
    {
      // JavaScript's `%` keeps the sign of the dividend, but it is zero exactly
      // when Dafny's is, which is all the rule asks.
      year % 400 == 0 || year % 4 == 0
    }

    /** The number of days the helper assigns to its month. */
    function GetDaysInThisMonth(): (n: int)
      ensures n in {28, 29, 30, 31}
      ensures n == 30 <==> month in {3, 5, 8, 10}
      ensures n == 31 <==> month in {0, 2, 4, 6, 7, 9, 11}
      ensures month == 1 ==> n == (if IsLeapYear() then 29 else 28)
    {
      if month in MonthsWith30Days then 30
      else if month in MonthsWith31Days then 31
      else if IsLeapYear() then 29
      else 28
    }

    /** Midnight on the first of the month. */
    function GetFirstDateOfTheMonth(): (r: Date)
      requires Valid()
      ensures r == DateTime(FullYear(year), month, 1, 0)
    {
      NewDate(year, month, 1)
    }

    /** Midnight on the first of the next month; December rolls into January of the next year. */
    function GetFirstDateOfNextMonth(): (r: Date)
      requires Valid()
      ensures month < 11 ==> r == DateTime(FullYear(year), month + 1, 1, 0)
      ensures month == 11 ==> r == DateTime(FullYear(year) + 1, 0, 1, 0)
    {
      NewDate(year, month + 1, 1)
    }

    /**
     * Midnight on day `GetDaysInThisMonth()` of the month; when the helper
     * counts one day more than the month has, the date rolls over to the first
     * of the next month.
     */
    function GetLastDateOfTheMonth(): (r: Date)
      requires Valid()
      ensures GetDaysInThisMonth() <= DaysInMonth(FullYear(year), month) ==>
                r == DateTime(FullYear(year), month, GetDaysInThisMonth(), 0)
      ensures GetDaysInThisMonth() > DaysInMonth(FullYear(year), month) ==>
                r == DateTime(FullYear(year), month + 1, 1, 0)
    {
      NewDate(year, month, GetDaysInThisMonth())
    }

    /** The last date of the month with the calendar's own month length. */
    function CorrectedLastDateOfTheMonth(): (r: Date)
      requires Valid()
      ensures r.year == FullYear(year) && r.month == month
      ensures NewDate(r.year, r.month, r.day + 1) == GetFirstDateOfNextMonth()
    {
      var y := FullYear(year);
      assert FullYear(y) == y;
      NewDate(year, month, DaysInMonth(y, month))
    }
  }

  /** `new ModDate(date)`: the helper reads the year and month of `date` once. */
  function NewModDate(date: Date): (md: ModDate)
    ensures md.Valid() && md.GetDate() == date
  {
    ModDate(date, date.year, date.month)
  }

  /** The two month lists are disjoint and, with February, cover the twelve months. */
  lemma MonthListsPartition(m: int)
    requires 0 <= m < 12
    ensures !(m in MonthsWith30Days && m in MonthsWith31Days)
    ensures (m in MonthsWith30Days) || (m in MonthsWith31Days) || m == 1
    ensures m == 1 ==> m !in MonthsWith30Days && m !in MonthsWith31Days
  {
  }

  /**
   * The helper's month length agrees with the calendar's except in February
   * of a year divisible by 100 but not by 400, where it is one day longer.
   */
  lemma DaysInThisMonthAgreement(md: ModDate)
    requires md.Valid()
    ensures md.GetDaysInThisMonth() == DaysInMonth(md.year, md.month)
            <==> !(md.month == 1 && md.year % 100 == 0 && md.year % 400 != 0)
    ensures md.GetDaysInThisMonth() <= DaysInMonth(md.year, md.month) + 1
  {
  }

  /** 1900 counts as a leap year for the helper but not for the calendar. */
  lemma Year1900IsLeap(md: ModDate)
    requires md.year == 1900
    ensures md.IsLeapYear() && !IsGregorianLeapYear(1900)
  {
  }

  /** For February 1900 the last date of the month comes out as 1 March 1900. */
  lemma LastDateOfFebruary1900(md: ModDate)
    requires md.Valid() && md.year == 1900 && md.month == 1
    ensures md.GetLastDateOfTheMonth() == DateTime(1900, 2, 1, 0)
    ensures md.GetLastDateOfTheMonth() == md.GetFirstDateOfNextMonth()
  {
  }

  /**
   * Outside the two-digit years, the last date is the last day of the month
   * exactly when the month is not February of a year divisible by 100 but not
   * by 400.
   */
  lemma LastDateIsLastDay(md: ModDate)
    requires md.Valid() && !(0 <= md.year <= 99)
    ensures var r := md.GetLastDateOfTheMonth();
            (r.year == md.year && r.month == md.month && r.day == DaysInMonth(md.year, md.month))
            <==> !(md.month == 1 && md.year % 100 == 0 && md.year % 400 != 0)
  {
  }
}
