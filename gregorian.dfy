/** The calendar arithmetic of the JavaScript `Date` object (the day and year
    functions of section 21.4.1 of ECMA-262), as the month view uses it to find
    the weekday of the 1st and the number of days of the displayed month. Day
    numbers count days from 1 January 1970. */
module Gregorian {

  /** DaysInYear(y) */
  function DaysInYear(y: int): int {
    if y % 4 != 0 then 365
    else if y % 100 != 0 then 366
    else if y % 400 != 0 then 365
    else 366
  }

  /** InLeapYear */
  predicate IsLeapYear(y: int) {
    DaysInYear(y) == 366
  }

  /** DayFromYear(y): the day number of 1 January of `y`. Dafny's `/` by a
      positive divisor rounds down, as the standard's floor does. */
  function DayFromYear(y: int): int {
    365 * (y - 1970) + (y - 1969) / 4 - (y - 1901) / 100 + (y - 1601) / 400
  }

  /** The days of a year before the first of month `mn` (0-based), from the
      month boundaries of MonthFromTime. */
  function DaysBeforeMonth(mn: int, leap: bool): int
    requires 0 <= mn < 12
  {
    [0, 31, 59, 90, 120, 151, 181, 212, 243, 273, 304, 334][mn]
      + (if leap && mn >= 2 then 1 else 0)
  }

  /** MakeDay(year, month, date): the day number of the given date, with the
      month taken modulo 12 into the year and the date counted from the 1st, so
      that date 0 is the last day of the previous month. */
  function MakeDay(year: int, month: int, date: int): int {
    var ym := year + month / 12;
    var mn := month % 12;
    DayFromYear(ym) + DaysBeforeMonth(mn, IsLeapYear(ym)) + date - 1
  }

  /** WeekDay: 0 is Sunday; day 0, 1 January 1970, was a Thursday. */
  function WeekDay(day: int): int {
    (day + 4) % 7
  }

  /** The `Date` constructor reads the years 0 to 99 as 1900 to 1999. */
  function DateCtorYear(year: int): int {
    if 0 <= year <= 99 then 1900 + year else year
  }

  /** `new Date(year, month, 1).getDay()`: the weekday of the 1st. */
  function FirstWeekday(year: int, month: int): (r: int)
    ensures 0 <= r <= 6
  {
    WeekDay(MakeDay(DateCtorYear(year), month, 1))
  }

  /** `new Date(year, month + 1, 0).getDate()`: day 0 of the next month is the
      last day of `month`, and its date is its distance from the 1st plus one. */
  function DaysInMonth(year: int, month: int): int {
    var y := DateCtorYear(year);
    MakeDay(y, month + 1, 0) - MakeDay(y, month, 1) + 1
  }

  /** The month lengths of the Gregorian calendar. */
  function MonthLength(y: int, month: int): int
    requires 0 <= month <= 11
  {
    if month == 1 then (if (y % 4 == 0 && y % 100 != 0) || y % 400 == 0 then 29 else 28)
    else [31, 28, 31, 30, 31, 30, 31, 31, 30, 31, 30, 31][month]
  }

  // ---------------------------------------------------------------------
  // Properties

  lemma LeapDayStep(y: int)
    ensures (y - 1968) / 4 - (y - 1969) / 4 == if y % 4 == 0 then 1 else 0
  {
  }

  lemma CenturyStep(y: int)
    ensures (y - 1900) / 100 - (y - 1901) / 100 == if y % 100 == 0 then 1 else 0
  {
  }

  lemma QuadricentennialStep(y: int)
    ensures (y - 1600) / 400 - (y - 1601) / 400 == if y % 400 == 0 then 1 else 0
  {
  }

  lemma DivisibilityChain(y: int)
    ensures y % 100 == 0 ==> y % 4 == 0
    ensures y % 400 == 0 ==> y % 100 == 0
  {
    if y % 100 == 0 {
      var k := 25 * (y / 100);
      assert y == 4 * k;
      assert y / 4 == k;
    }
    if y % 400 == 0 {
      var k := 4 * (y / 400);
      assert y == 100 * k;
      assert y / 100 == k;
    }
  }

  /** A year has DaysInYear days from its 1 January to the next. */
  lemma YearLength(y: int)
    ensures DayFromYear(y + 1) - DayFromYear(y) == DaysInYear(y)
  {
    LeapDayStep(y);
    CenturyStep(y);
    QuadricentennialStep(y);
    DivisibilityChain(y);
    assert DayFromYear(y + 1) - DayFromYear(y) == 365
      + ((y - 1968) / 4 - (y - 1969) / 4)
      - ((y - 1900) / 100 - (y - 1901) / 100)
      + ((y - 1600) / 400 - (y - 1601) / 400);
  }

  /** DaysInYear says 366 exactly for the leap years of the Gregorian rule. */
  lemma LeapRule(y: int)
    ensures IsLeapYear(y) <==> (y % 4 == 0 && y % 100 != 0) || y % 400 == 0
  {
    if y % 400 == 0 {
      assert y % 4 == 0 && y % 100 == 0;
    }
  }

  /** Within a year, MakeDay counts from 1 January by the month table. */
  lemma MakeDayInYear(y: int, month: int, date: int)
    requires 0 <= month <= 11
    ensures MakeDay(y, month, date) == DayFromYear(y) + DaysBeforeMonth(month, IsLeapYear(y)) + date - 1
  {
    assert month / 12 == 0 && month % 12 == month;
  }

  /** Month 12 is January of the next year. */
  lemma MakeDayRollsOver(y: int, date: int)
    ensures MakeDay(y, 12, date) == DayFromYear(y + 1) + date - 1
  {
  }

  lemma TableStep(month: int, leap: bool)
    requires 0 <= month <= 10
    ensures DaysBeforeMonth(month + 1, leap) - DaysBeforeMonth(month, leap)
      == if month == 1 then (if leap then 29 else 28) else [31, 28, 31, 30, 31, 30, 31, 31, 30, 31, 30, 31][month]
  {
  }

  lemma DecemberLength(y: int)
    ensures MakeDay(y, 12, 0) - MakeDay(y, 11, 1) + 1 == 31
  {
    YearLength(y);
    MakeDayInYear(y, 11, 1);
    MakeDayRollsOver(y, 0);
    LeapRule(y);
  }

  lemma LengthWithinYear(y: int, month: int)
    requires 0 <= month <= 10
    ensures MakeDay(y, month + 1, 0) - MakeDay(y, month, 1) + 1 == MonthLength(y, month)
  {
    LeapRule(y);
    MakeDayInYear(y, month, 1);
    MakeDayInYear(y, month + 1, 0);
    TableStep(month, IsLeapYear(y));
  }

  /** The days in a month are those of the Gregorian calendar for the year the
      `Date` constructor uses. */
  lemma DaysInMonthIsMonthLength(year: int, month: int)
    requires 0 <= month <= 11
    ensures DaysInMonth(year, month) == MonthLength(DateCtorYear(year), month)
  {
    var y := DateCtorYear(year);
    if month == 11 {
      DecemberLength(y);
    } else {
      LengthWithinYear(y, month);
    }
  }

  /** A month has 28 to 31 days; February has 29 exactly in the leap years. */
  lemma DaysInMonthRange(year: int, month: int)
    requires 0 <= month <= 11
    ensures 28 <= DaysInMonth(year, month) <= 31
    ensures var y := DateCtorYear(year);
      DaysInMonth(year, 1) == 29 <==> (y % 4 == 0 && y % 100 != 0) || y % 400 == 0
  {
    var y := DateCtorYear(year);
    DaysInMonthIsMonthLength(year, month);
    DaysInMonthIsMonthLength(year, 1);
    assert 28 <= MonthLength(y, month) <= 31;
    assert MonthLength(y, 1) == 29 <==> (y % 4 == 0 && y % 100 != 0) || y % 400 == 0;
  }

  /** Date 0 is the day before the 1st, and month 12 is January of the next year. */
  lemma NextFirstDay(y: int, month: int)
    requires 0 <= month <= 11
    ensures MakeDay(y, month + 1, 1) == MakeDay(y, month + 1, 0) + 1
    ensures month == 11 ==> MakeDay(y, month + 1, 1) == MakeDay(y + 1, 0, 1)
  {
    if month == 11 {
      assert (month + 1) / 12 == 1 && (month + 1) % 12 == 0;
    } else {
      assert (month + 1) / 12 == 0 && (month + 1) % 12 == month + 1;
    }
  }

  /** Days `n` apart, weekdays `n` apart modulo 7. */
  lemma WeekDayAdvance(day: int, later: int, n: int)
    requires later == day + n
    ensures WeekDay(later) == (WeekDay(day) + n) % 7
  {
    var q := (day + 4) / 7;
    assert day + 4 == 7 * q + WeekDay(day);
    assert later + 4 == 7 * q + (WeekDay(day) + n);
  }

  /** The weekday of the first of the next month follows from this month's
      first weekday and length, when the `Date` constructor reads the year of
      this month and of the next one in the same way. */
  lemma FirstWeekdayOfNextMonth(year: int, month: int)
    requires 0 <= month <= 11
    requires month == 11 ==> DateCtorYear(year + 1) == DateCtorYear(year) + 1
    ensures month < 11 ==>
      FirstWeekday(year, month + 1) == (FirstWeekday(year, month) + DaysInMonth(year, month)) % 7
    ensures month == 11 ==>
      FirstWeekday(year + 1, 0) == (FirstWeekday(year, month) + DaysInMonth(year, month)) % 7
  {
    var y := DateCtorYear(year);
    NextFirstDay(y, month);
    WeekDayAdvance(MakeDay(y, month, 1), MakeDay(y, month + 1, 1), DaysInMonth(year, month));
  }
}
