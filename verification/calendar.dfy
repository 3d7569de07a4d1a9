/**
 * The proleptic Gregorian calendar the planner gets from the JavaScript `Date`
 * object, stated on plain integers. Days are numbered consecutively from
 * 0001-01-01 (day 0, a Monday). Months are zero-based, as `Date` has them.
 */
module Calendar {

  /** A calendar date as `Date` reports it: `getFullYear()`, `getMonth()` (0..11), `getDate()`. */
  datatype Date = Date(year: int, month: int, day: int)

  predicate IsLeapYear(y: int) {
    y % 4 == 0 && (y % 100 != 0 || y % 400 == 0)
  }

  /** Number of days in month `m` (0 = January) of year `y`. */
  function MonthLength(y: int, m: int): (n: int)
    requires 0 <= m < 12
    ensures 28 <= n <= 31
    ensures m == 1 ==> (n == 29 <==> IsLeapYear(y))
  {
    if m == 1 then (if IsLeapYear(y) then 29 else 28)
    else if m == 3 || m == 5 || m == 8 || m == 10 then 30
    else 31
  }

  predicate ValidDate(d: Date) {
    0 <= d.month < 12 && 1 <= d.day <= MonthLength(d.year, d.month)
  }

  /** Days from 0001-01-01 to the first of January of year `y`. */
  function DaysBeforeYear(y: int): int {
    365 * (y - 1) + (y - 1) / 4 - (y - 1) / 100 + (y - 1) / 400
  }

  /** Days from the first of January to the first of month `m`, from the usual cumulative table. */
  function DaysBeforeMonth(y: int, m: int): int
    requires 0 <= m < 12
  {
    [0, 31, 59, 90, 120, 151, 181, 212, 243, 273, 304, 334][m]
      + (if m >= 2 && IsLeapYear(y) then 1 else 0)
  }

  /**
   * The number of day `d` of month `m` of year `y`. The day may lie outside the
   * month: day 0 is the last day of the previous month, as in `new Date(y, m, 0)`.
   */
  function DayNumber(y: int, m: int, d: int): int
    requires 0 <= m < 12
  {
    DaysBeforeYear(y) + DaysBeforeMonth(y, m) + d - 1
  }

  /** ECMA-262 MakeDay: a month outside 0..11 carries into the year by floor division. */
  function MakeDay(y: int, m: int, d: int): (n: int)
    ensures 0 <= m < 12 ==> n == DayNumber(y, m, d)
    ensures m == 12 ==> n == DayNumber(y + 1, 0, d)
    ensures m == -1 ==> n == DayNumber(y - 1, 11, d)
  {
    if 0 <= m < 12 then
      assert m / 12 == 0 && m % 12 == m;
      DayNumber(y + m / 12, m % 12, d)
    else if m == 12 then
      assert m / 12 == 1 && m % 12 == 0;
      DayNumber(y + m / 12, m % 12, d)
    else if m == -1 then
      assert m / 12 == -1 && m % 12 == 11;
      DayNumber(y + m / 12, m % 12, d)
    else
      DayNumber(y + m / 12, m % 12, d)
  }

  /** `Date.prototype.getDay()`: 0 = Sunday, 1 = Monday, ..., 6 = Saturday. */
  function Weekday(n: int): (w: int)
    ensures 0 <= w < 7
    ensures w == 1 <==> n % 7 == 0
    ensures w == 0 <==> n % 7 == 6
  {
    (n + 1) % 7
  }

  /** The `Date(year, month, day)` constructor reads a year in 0..99 as 1900 + year. */
  function DateYear(y: int): int {
    if 0 <= y <= 99 then 1900 + y else y
  }

  lemma DivStep(a: int)
    ensures a / 4 - (a - 1) / 4 == (if a % 4 == 0 then 1 else 0)
    ensures a / 100 - (a - 1) / 100 == (if a % 100 == 0 then 1 else 0)
    ensures a / 400 - (a - 1) / 400 == (if a % 400 == 0 then 1 else 0)
  {
  }

  /** A year has 366 days exactly when it is a leap year, 365 otherwise. */
  lemma {:induction false} YearLength(y: int)
    ensures DaysBeforeYear(y + 1) == DaysBeforeYear(y) + (if IsLeapYear(y) then 366 else 365)
  {
    DivStep(y);
  }

  /** The first of the next month comes `MonthLength(y, m)` days after the first of month `m`. */
  lemma {:induction false} MonthFollowsMonth(y: int, m: int)
    requires 0 <= m < 12
    ensures MakeDay(y, m + 1, 1) == DayNumber(y, m, 1) + MonthLength(y, m)
  {
    if m == 11 {
      YearLength(y);
    } else {
      MonthTableStep(y, m);
    }
  }

  /** Each entry of the cumulative table adds the length of the month before it. */
  lemma MonthTableStep(y: int, m: int)
    requires 0 <= m < 11
    ensures DaysBeforeMonth(y, m + 1) == DaysBeforeMonth(y, m) + MonthLength(y, m)
  {
  }

  /** `new Date(y, m + 1, 0)` is the last day of month `m`, numbered `MonthLength(y, m)`. */
  lemma LastDayOfMonth(y: int, m: int)
    requires 0 <= m < 12
    ensures MakeDay(y, m + 1, 0) == DayNumber(y, m, MonthLength(y, m))
    ensures MakeDay(y, m + 1, 0) + 1 == MakeDay(y, m + 1, 1)
  {
    MonthFollowsMonth(y, m);
  }

  /** Valid dates are numbered without gaps or clashes: the numbering is one-to-one. */
  lemma {:induction false} DayNumberInjective(a: Date, b: Date)
    requires ValidDate(a) && ValidDate(b)
    requires DayNumber(a.year, a.month, a.day) == DayNumber(b.year, b.month, b.day)
    ensures a == b
  {
    if a.year < b.year {
      DayNumberBeforeNextYear(a);
      DaysBeforeYearMonotone(a.year + 1, b.year);
      assert false;
    } else if b.year < a.year {
      DayNumberBeforeNextYear(b);
      DaysBeforeYearMonotone(b.year + 1, a.year);
      assert false;
    } else if a.month < b.month {
      DaysBeforeMonthMonotone(a.year, a.month, b.month);
      assert false;
    } else if b.month < a.month {
      DaysBeforeMonthMonotone(a.year, b.month, a.month);
      assert false;
    }
  }

  lemma DayNumberBeforeNextYear(d: Date)
    requires ValidDate(d)
    ensures DayNumber(d.year, d.month, d.day) < DaysBeforeYear(d.year + 1)
  {
    YearLength(d.year);
  }

  lemma {:induction false} DaysBeforeYearMonotone(x: int, y: int)
    requires x <= y
    ensures DaysBeforeYear(x) <= DaysBeforeYear(y)
    decreases y - x
  {
    if x < y {
      YearLength(x);
      DaysBeforeYearMonotone(x + 1, y);
    }
  }

  lemma DaysBeforeMonthMonotone(y: int, m1: int, m2: int)
    requires 0 <= m1 < m2 < 12
    ensures DaysBeforeMonth(y, m1) + MonthLength(y, m1) <= DaysBeforeMonth(y, m2)
  {
  }

  /** The year holding day `n`, searched upward from year `y`. */
  function YearFrom(y: int, n: int): (r: int)
    requires DaysBeforeYear(y) <= n
    ensures y <= r && DaysBeforeYear(r) <= n < DaysBeforeYear(r + 1)
    decreases n - DaysBeforeYear(y)
  {
    YearLength(y);
    if n < DaysBeforeYear(y + 1) then y else YearFrom(y + 1, n)
  }

  /** The year holding day `n`, searched downward from year `y`. */
  function YearBefore(y: int, n: int): (r: int)
    requires n < DaysBeforeYear(y + 1)
    ensures DaysBeforeYear(r) <= n < DaysBeforeYear(r + 1)
    decreases DaysBeforeYear(y + 1) - n
  {
    YearLength(y);
    if DaysBeforeYear(y) <= n then y else YearBefore(y - 1, n)
  }

  /** The month of a year holding day `r` of that year, searched downward from month `m`. */
  function MonthFrom(y: int, r: int, m: int): (k: int)
    requires 0 <= m < 12 && 0 <= r
    requires m < 11 ==> r < DaysBeforeMonth(y, m + 1)
    ensures 0 <= k <= m && DaysBeforeMonth(y, k) <= r
    ensures k < 11 ==> r < DaysBeforeMonth(y, k + 1)
    decreases m
  {
    if m == 0 || DaysBeforeMonth(y, m) <= r then m else MonthFrom(y, r, m - 1)
  }

  /**
   * `getFullYear()`, `getMonth()` and `getDate()` of day `n`: the valid date
   * that carries that day number.
   */
  function DateOf(n: int): (d: Date)
    ensures ValidDate(d) && DayNumber(d.year, d.month, d.day) == n
    ensures n >= 0 ==> d.year >= 1
  {
    var y := if n >= 0 then YearFrom(1, n) else YearBefore(0, n);
    YearLength(y);
    var r := n - DaysBeforeYear(y);
    var m := MonthFrom(y, r, 11);
    if m < 11 then
      MonthTableStep(y, m);
      Date(y, m, r - DaysBeforeMonth(y, m) + 1)
    else
      Date(y, m, r - DaysBeforeMonth(y, m) + 1)
  }

  /** Reading a valid date's day number back gives that date: `DateOf` inverts the numbering. */
  lemma DateOfDayNumber(d: Date)
    requires ValidDate(d)
    ensures DateOf(DayNumber(d.year, d.month, d.day)) == d
  {
    DayNumberInjective(DateOf(DayNumber(d.year, d.month, d.day)), d);
  }
}
