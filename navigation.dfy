/** The previous- and next-month buttons: the displayed (year, month) pair
    moves by one month, the month wrapping around between 0 and 11 and the
    year changing with it. */
module Navigation {

  /** `currentMonth++`, and on passing 11 the month becomes 0 and the year
      goes up. */
  function Next(year: int, month: int): (int, int) {
    if month + 1 > 11 then (year + 1, 0) else (year, month + 1)
  }

  /** `currentMonth--`, and on passing 0 the month becomes 11 and the year
      goes down. */
  function Prev(year: int, month: int): (int, int) {
    if month - 1 < 0 then (year - 1, 11) else (year, month - 1)
  }

  /** The position of a month on a single line of months. */
  function MonthIndex(year: int, month: int): int {
    12 * year + month
  }

  /** Next keeps the month in [0,11], moves one month forward, and rolls
      December over into January of the next year. */
  lemma NextStep(year: int, month: int)
    requires 0 <= month <= 11
    ensures var (y, m) := Next(year, month);
      && 0 <= m <= 11
      && MonthIndex(y, m) == MonthIndex(year, month) + 1
      && (month == 11 ==> y == year + 1 && m == 0)
      && (month < 11 ==> y == year && m == month + 1)
  {
  }

  /** Prev keeps the month in [0,11], moves one month back, and rolls
      January back into December of the previous year. */
  lemma PrevStep(year: int, month: int)
    requires 0 <= month <= 11
    ensures var (y, m) := Prev(year, month);
      && 0 <= m <= 11
      && MonthIndex(y, m) == MonthIndex(year, month) - 1
      && (month == 0 ==> y == year - 1 && m == 11)
      && (month > 0 ==> y == year && m == month - 1)
  {
  }

  /** A month of [0,11] is determined by its position on the line. */
  lemma MonthIndexInjective(y1: int, m1: int, y2: int, m2: int)
    requires 0 <= m1 <= 11 && 0 <= m2 <= 11
    requires MonthIndex(y1, m1) == MonthIndex(y2, m2)
    ensures y1 == y2 && m1 == m2
  {
  }

  /** Next after Prev, and Prev after Next, return to the month one started
      from. */
  lemma PrevNextInverse(year: int, month: int)
    requires 0 <= month <= 11
    ensures var (y, m) := Next(year, month); Prev(y, m) == (year, month)
    ensures var (y, m) := Prev(year, month); Next(y, m) == (year, month)
  {
  }
}
