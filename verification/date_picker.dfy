/**
 * The date picker: a header whose year, month and day open three pop-overs,
 * a month calendar laid out Monday first, month and year stepping, and the
 * list of years on offer. Dates are the `Date(year, month, day)` values of the
 * `Calendar` module, with zero-based months.
 */
module DatePicker {
  import opened Calendar

  /** Which pop-over is open: none, the years, the months or the days of a month. */
  datatype PickerMode = NoPicker | YearPicker | MonthPicker | DayPicker

  /** `setPickerMode(pickerMode === mode ? 'none' : mode)`: a header click opens its pop-over or closes it. */
  function Toggle(current: PickerMode, mode: PickerMode): (r: PickerMode)
    requires mode != NoPicker
    ensures r == NoPicker || r == mode
    ensures r == NoPicker <==> current == mode
  {
    if current == mode then NoPicker else mode
  }

  /** Clicking the same header twice from a closed or its own pop-over comes back to where it started. */
  lemma ToggleTwice(current: PickerMode, mode: PickerMode)
    requires mode != NoPicker
    requires current == NoPicker || current == mode
    ensures Toggle(Toggle(current, mode), mode) == current
  {
  }

  /** A month of a year, the month zero-based. */
  datatype YearMonth = YearMonth(year: int, month: int)

  /** Months counted from year 0: consecutive months differ by one. */
  function MonthIndex(ym: YearMonth): int {
    12 * ym.year + ym.month
  }

  /** The `‹` button of the day pop-over: January goes to December of the year before. */
  function PrevMonthOf(ym: YearMonth): (r: YearMonth)
    requires 0 <= ym.month < 12
    ensures 0 <= r.month < 12
    ensures MonthIndex(r) == MonthIndex(ym) - 1
  {
    if ym.month == 0 then YearMonth(ym.year - 1, 11) else YearMonth(ym.year, ym.month - 1)
  }

  /** The `›` button of the day pop-over: December goes to January of the year after. */
  function NextMonthOf(ym: YearMonth): (r: YearMonth)
    requires 0 <= ym.month < 12
    ensures 0 <= r.month < 12
    ensures MonthIndex(r) == MonthIndex(ym) + 1
  {
    if ym.month == 11 then YearMonth(ym.year + 1, 0) else YearMonth(ym.year, ym.month + 1)
  }

  /** Two months with the month in 0..11 and the same index are the same month. */
  lemma MonthIndexInjective(a: YearMonth, b: YearMonth)
    requires 0 <= a.month < 12 && 0 <= b.month < 12
    requires MonthIndex(a) == MonthIndex(b)
    ensures a == b
  {
  }

  /** Forward then back, or back then forward, returns to the month shown. */
  lemma PrevNextInverse(ym: YearMonth)
    requires 0 <= ym.month < 12
    ensures PrevMonthOf(NextMonthOf(ym)) == ym
    ensures NextMonthOf(PrevMonthOf(ym)) == ym
  {
    MonthIndexInjective(PrevMonthOf(NextMonthOf(ym)), ym);
    MonthIndexInjective(NextMonthOf(PrevMonthOf(ym)), ym);
  }

  /** The month after is where the calendar puts month `m + 1`: its first day follows the last of this one. */
  lemma NextMonthIsCalendarMonth(ym: YearMonth)
    requires 0 <= ym.month < 12
    ensures DayNumber(NextMonthOf(ym).year, NextMonthOf(ym).month, 1) == MakeDay(ym.year, ym.month + 1, 1)
    ensures DayNumber(NextMonthOf(ym).year, NextMonthOf(ym).month, 1)
      == DayNumber(ym.year, ym.month, 1) + MonthLength(ym.year, ym.month)
  {
    MonthFollowsMonth(ym.year, ym.month);
    if ym.month == 11 {
      assert NextMonthOf(ym) == YearMonth(ym.year + 1, 0);
    } else {
      assert NextMonthOf(ym) == YearMonth(ym.year, ym.month + 1);
    }
  }

  /**
   * `new Date(year, month + 1, 0).getDate()`: the number of days in the month,
   * with the year read as `Date` reads it.
   */
  function GetDaysInMonth(year: int, month: int): (n: int)
    requires 0 <= month < 12
    ensures 28 <= n <= 31
    ensures month == 1 ==> (n == 29 <==> IsLeapYear(DateYear(year)))
    ensures month != 1 ==> n == (if month == 3 || month == 5 || month == 8 || month == 10 then 30 else 31)
  {
    MonthLength(DateYear(year), month)
  }

  /**
   * Day 0 of the next month is a real date of this month, the last one: the only
   * valid date with that day number has day `GetDaysInMonth(year, month)`, and
   * one day further is not in the month.
   */
  lemma DaysInMonthIsLastDay(year: int, month: int, d: Date)
    requires 0 <= month < 12
    requires ValidDate(d) && DayNumber(d.year, d.month, d.day) == MakeDay(DateYear(year), month + 1, 0)
    ensures d == Date(DateYear(year), month, GetDaysInMonth(year, month))
    ensures !ValidDate(Date(DateYear(year), month, GetDaysInMonth(year, month) + 1))
  {
    var y := DateYear(year);
    LastDayOfMonth(y, month);
    DayNumberInjective(d, Date(y, month, MonthLength(y, month)));
  }

  /**
   * `getFirstDayOfMonth`: the column of the month's first day in a calendar whose
   * weeks start on Monday (Monday 0, ..., Sunday 6).
   */
  function GetFirstDayOfMonth(year: int, month: int): (r: int)
    requires 0 <= month < 12
    ensures 0 <= r < 7
    ensures (r + 1) % 7 == Weekday(MakeDay(DateYear(year), month, 1))
    ensures r == MakeDay(DateYear(year), month, 1) % 7
  {
    var n := MakeDay(DateYear(year), month, 1);
    ColumnOfDay(n);
    if Weekday(n) == 0 then 6 else Weekday(n) - 1
  }

  /** Day 0 is a Monday, so the Monday-first column of day `n` is `n % 7`. */
  lemma ColumnOfDay(n: int)
    ensures (if Weekday(n) == 0 then 6 else Weekday(n) - 1) == n % 7
  {
    var q := n / 7;
    var c := n % 7;
    assert n + 1 == 7 * q + (c + 1);
    if c == 6 {
      assert n + 1 == 7 * (q + 1);
    }
  }

  /** Sunday goes to the last column and Monday to the first. */
  lemma FirstDayColumns(year: int, month: int)
    requires 0 <= month < 12
    ensures Weekday(MakeDay(DateYear(year), month, 1)) == 0 ==> GetFirstDayOfMonth(year, month) == 6
    ensures Weekday(MakeDay(DateYear(year), month, 1)) == 1 ==> GetFirstDayOfMonth(year, month) == 0
  {
  }

  /** The years offered: ten before `currentYear` to ten after, in order. */
  method Years(currentYear: int) returns (years: seq<int>)
    ensures |years| == 21
    ensures forall i :: 0 <= i < |years| ==> years[i] == currentYear - 10 + i
    ensures years[10] == currentYear
  {
    var yearStart := currentYear - 10;
    var yearEnd := currentYear + 10;
    years := [];
    var y := yearStart;
    while y <= yearEnd
      invariant yearStart <= y <= yearEnd + 1
      invariant |years| == y - yearStart
      invariant forall i :: 0 <= i < |years| ==> years[i] == yearStart + i
    {
      years := years + [y];
      y := y + 1;
    }
  }

  /** The picker's state: the open pop-over and the month it shows. */
  class Picker {
    var pickerMode: PickerMode
    var viewYear: int
    var viewMonth: int

    ghost predicate Valid()
      reads this
    {
      0 <= viewMonth < 12
    }

    /** Closed, showing the month of the selected date. */
    constructor (selected: Date)
      requires 0 <= selected.month < 12
      ensures Valid()
      ensures pickerMode == NoPicker && viewYear == selected.year && viewMonth == selected.month
    {
      pickerMode := NoPicker;
      viewYear := selected.year;
      viewMonth := selected.month;
    }

    /** The month shown. */
    function View(): YearMonth
      reads this
    {
      YearMonth(viewYear, viewMonth)
    }

    /** A new selected date from outside: the view follows it. */
    method SyncSelected(selected: Date)
      requires 0 <= selected.month < 12
      modifies this`viewYear, this`viewMonth
      ensures Valid() && viewYear == selected.year && viewMonth == selected.month
    {
      viewYear := selected.year;
      viewMonth := selected.month;
    }

    /** `handleYearClick`. */
    method YearClick()
      requires Valid()
      modifies this`pickerMode
      ensures Valid() && pickerMode == Toggle(old(pickerMode), YearPicker)
    {
      pickerMode := if pickerMode == YearPicker then NoPicker else YearPicker;
    }

    /** `handleMonthClick`. */
    method MonthClick()
      requires Valid()
      modifies this`pickerMode
      ensures Valid() && pickerMode == Toggle(old(pickerMode), MonthPicker)
    {
      pickerMode := if pickerMode == MonthPicker then NoPicker else MonthPicker;
    }

    /** `handleDayClick`: back to the selected date's month, and the day pop-over opens or closes. */
    method DayClick(selected: Date)
      requires 0 <= selected.month < 12
      modifies this
      ensures Valid() && viewYear == selected.year && viewMonth == selected.month
      ensures pickerMode == Toggle(old(pickerMode), DayPicker)
    {
      viewYear := selected.year;
      viewMonth := selected.month;
      pickerMode := if pickerMode == DayPicker then NoPicker else DayPicker;
    }

    /** `selectYear(year)`: that year is shown and the months open. */
    method SelectYear(year: int)
      requires Valid()
      modifies this`viewYear, this`pickerMode
      ensures Valid() && viewYear == year && pickerMode == MonthPicker
    {
      viewYear := year;
      pickerMode := MonthPicker;
    }

    /** `selectMonth(month)` for one of the twelve months: that month is shown and the days open. */
    method SelectMonth(month: int)
      requires 0 <= month < 12
      modifies this`viewMonth, this`pickerMode
      ensures Valid() && viewMonth == month && pickerMode == DayPicker
    {
      viewMonth := month;
      pickerMode := DayPicker;
    }

    /**
     * `selectDay(day)`: the date `new Date(viewYear, viewMonth, day)`, as a day
     * number, goes to the caller and the picker closes. A day of the month shown
     * gives exactly that date.
     */
    method SelectDay(day: int) returns (chosen: int)
      requires Valid()
      modifies this`pickerMode
      ensures Valid() && pickerMode == NoPicker
      ensures chosen == MakeDay(DateYear(viewYear), viewMonth, day)
      ensures 1 <= day <= GetDaysInMonth(viewYear, viewMonth) ==>
        ValidDate(Date(DateYear(viewYear), viewMonth, day))
        && chosen == DayNumber(DateYear(viewYear), viewMonth, day)
    {
      chosen := MakeDay(DateYear(viewYear), viewMonth, day);
      assert viewMonth / 12 == 0 && viewMonth % 12 == viewMonth;
      pickerMode := NoPicker;
    }

    /** The `‹` button of the day pop-over. */
    method PrevMonth()
      requires Valid()
      modifies this`viewYear, this`viewMonth
      ensures Valid() && View() == PrevMonthOf(old(View()))
    {
      if viewMonth == 0 {
        viewMonth := 11;
        viewYear := viewYear - 1;
      } else {
        viewMonth := viewMonth - 1;
      }
    }

    /** The `›` button of the day pop-over. */
    method NextMonth()
      requires Valid()
      modifies this`viewYear, this`viewMonth
      ensures Valid() && View() == NextMonthOf(old(View()))
    {
      if viewMonth == 11 {
        viewMonth := 0;
        viewYear := viewYear + 1;
      } else {
        viewMonth := viewMonth + 1;
      }
    }

    /** The `‹` button of the month pop-over: the year before. */
    method PrevYear()
      requires Valid()
      modifies this`viewYear
      ensures Valid() && viewYear == old(viewYear) - 1
    {
      viewYear := viewYear - 1;
    }

    /** The `›` button of the month pop-over: the year after. */
    method NextYear()
      requires Valid()
      modifies this`viewYear
      ensures Valid() && viewYear == old(viewYear) + 1
    {
      viewYear := viewYear + 1;
    }

    /** The year title of the month pop-over opens the years. */
    method YearTitleClick()
      requires Valid()
      modifies this`pickerMode
      ensures Valid() && pickerMode == YearPicker
    {
      pickerMode := YearPicker;
    }

    /** The month title of the day pop-over opens the months. */
    method MonthTitleClick()
      requires Valid()
      modifies this`pickerMode
      ensures Valid() && pickerMode == MonthPicker
    {
      pickerMode := MonthPicker;
    }

    /** A mouse press outside the picker while a pop-over is open closes it. */
    method ClickOutside()
      requires Valid()
      modifies this`pickerMode
      ensures Valid() && pickerMode == NoPicker
    {
      if pickerMode != NoPicker {
        pickerMode := NoPicker;
      }
    }
  }
}
