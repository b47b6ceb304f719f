/**
 * Calendar dates as the backup names carry them (YYYYMMDD), and the day number that
 * stands for the instant at local midnight: two dates compare as their day numbers do,
 * and "seven days before today" is a subtraction of day numbers.
 */
module Dates {

  datatype Date = Date(year: int, month: int, day: int)

  predicate IsLeapYear(y: int) {
    y % 4 == 0 && (y % 100 != 0 || y % 400 == 0)
  }

  function DaysInMonth(y: int, m: int): (n: int)
    requires 1 <= m <= 12
    ensures 28 <= n <= 31
    ensures n == 29 <==> m == 2 && IsLeapYear(y)
  {
    if m == 2 then (if IsLeapYear(y) then 29 else 28)
    else if m == 4 || m == 6 || m == 9 || m == 11 then 30
    else 31
  }

  /** A date whose year has four digits and whose month and day exist in the calendar. */
  predicate IsValidDate(d: Date) {
    0 <= d.year <= 9999 && 1 <= d.month <= 12 && 1 <= d.day <= DaysInMonth(d.year, d.month)
  }

  type CalendarDate = d: Date | IsValidDate(d) witness Date(2000, 1, 1)

  function YearLength(y: int): (n: int)
    ensures n == 365 || n == 366
  {
    if IsLeapYear(y) then 366 else 365
  }

  /** Days from 0000-01-01 to the first day of year `y`. */
  function DaysBeforeYear(y: nat): nat
  {
    if y == 0 then 0 else DaysBeforeYear(y - 1) + YearLength(y - 1)
  }

  /** Days from the first of January to the first day of month `m` of year `y`. */
  function DaysBeforeMonth(y: int, m: int): (n: int)
    requires 1 <= m <= 13
    ensures m == 1 ==> n == 0
    ensures m == 13 ==> n == YearLength(y)
  {
    var leap := if IsLeapYear(y) then 1 else 0;
    match m
    case 1 => 0
    case 2 => 31
    case 3 => 59 + leap
    case 4 => 90 + leap
    case 5 => 120 + leap
    case 6 => 151 + leap
    case 7 => 181 + leap
    case 8 => 212 + leap
    case 9 => 243 + leap
    case 10 => 273 + leap
    case 11 => 304 + leap
    case 12 => 334 + leap
    case _ => 365 + leap
  }

  /** The number of days from 0000-01-01 to `d`: the model of the source's `date.getTime()`. */
  function DayNumber(d: CalendarDate): int
  {
    DaysBeforeYear(d.year) + DaysBeforeMonth(d.year, d.month) + d.day - 1
  }

  /** Calendar order: by year, then month, then day. */
  predicate DateBefore(a: Date, b: Date) {
    a.year < b.year || (a.year == b.year && (a.month < b.month || (a.month == b.month && a.day < b.day)))
  }

  lemma DayOfYearBounds(d: CalendarDate)
    ensures 0 <= DaysBeforeMonth(d.year, d.month) + d.day - 1 < YearLength(d.year)
  {
    MonthsMonotone(d.year, d.month, 13);
  }

  /** Each month starts where the previous one ends, so month starts increase. */
  lemma MonthsMonotone(y: int, m1: int, m2: int)
    requires 1 <= m1 < m2 <= 13
    ensures DaysBeforeMonth(y, m1) + DaysInMonth(y, m1) <= DaysBeforeMonth(y, m2)
  {
    assert DaysBeforeMonth(y, m1) + DaysInMonth(y, m1) == DaysBeforeMonth(y, m1 + 1);
  }

  lemma {:induction false} YearsMonotone(y1: nat, y2: nat)
    requires y1 < y2
    ensures DaysBeforeYear(y1) + YearLength(y1) <= DaysBeforeYear(y2)
    decreases y2
  {
    if y1 + 1 < y2 {
      YearsMonotone(y1, y2 - 1);
    }
  }

  /** Day numbers order dates exactly as the calendar does. */
  lemma DayNumberOrder(a: CalendarDate, b: CalendarDate)
    ensures DateBefore(a, b) <==> DayNumber(a) < DayNumber(b)
    ensures a == b <==> DayNumber(a) == DayNumber(b)
  {
    DayOfYearBounds(a);
    DayOfYearBounds(b);
    if a.year < b.year {
      YearsMonotone(a.year, b.year);
    } else if b.year < a.year {
      YearsMonotone(b.year, a.year);
    } else if a.month < b.month {
      MonthsMonotone(a.year, a.month, b.month);
    } else if b.month < a.month {
      MonthsMonotone(a.year, b.month, a.month);
    }
  }

  /** The calendar day before `d`; only 0000-01-01 has none. */
  function PrevDay(d: CalendarDate): (r: CalendarDate)
    requires DayNumber(d) > 0
    ensures DayNumber(r) == DayNumber(d) - 1
  {
    if d.day > 1 then Date(d.year, d.month, d.day - 1)
    else if d.month > 1 then Date(d.year, d.month - 1, DaysInMonth(d.year, d.month - 1))
    else Date(d.year - 1, 12, 31)
  }

  /**
   * date-fns' `subDays(d, k)`: the date `k` calendar days before `d`, stepping back across
   * month and year ends one day at a time. Its day number is `k` less than `d`'s.
   */
  function SubDays(d: CalendarDate, k: nat): (r: CalendarDate)
    requires k <= DayNumber(d)
    ensures DayNumber(r) == DayNumber(d) - k
    decreases k
  {
    if k == 0 then d else SubDays(PrevDay(d), k - 1)
  }

  /** Comparing a date with `subDays(today, k)` is comparing its day number with today's minus `k`. */
  lemma SubDaysCompare(a: CalendarDate, today: CalendarDate, k: nat)
    requires k <= DayNumber(today)
    ensures DateBefore(a, SubDays(today, k)) <==> DayNumber(a) < DayNumber(today) - k
    ensures a == SubDays(today, k) <==> DayNumber(a) == DayNumber(today) - k
  {
    DayNumberOrder(a, SubDays(today, k));
  }
}
