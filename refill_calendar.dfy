/**
 * The refill calendar: a month view that can be moved one month at a time,
 * and a grid of day cells in which the patient's refill date, the program's
 * re-enrollment date and today are highlighted.
 */
module RefillCalendar {
  import opened Wrappers
  import opened CalendarDates

  /** The month on screen: getFullYear and getMonth of the calendar's current date. */
  datatype MonthView = MonthView(year: int, month: int)

  predicate ValidView(v: MonthView) {
    0 <= v.month < 12
  }

  /** A year the Date constructor would read as 1900 + year. */
  predicate TwoDigitYear(y: int) {
    0 <= y <= 99
  }

  /**
   * The month shown after the current date is set to new Date(y, m): the
   * constructor applies JsYear and carries a month outside 0..11 into the year.
   */
  function ViewOf(y: int, m: int): (v: MonthView)
    ensures ValidView(v)
  {
    MonthView(JsYear(y) + m / 12, m % 12)
  }

  /** The view after the "next month" button. */
  function MonthAfter(v: MonthView): (r: MonthView)
    requires ValidView(v)
    ensures ValidView(r)
    ensures !TwoDigitYear(v.year) ==>
              r == if v.month == 11 then MonthView(v.year + 1, 0) else MonthView(v.year, v.month + 1)
  {
    ViewOf(v.year, v.month + 1)
  }

  /** The view after the "previous month" button. */
  function MonthBefore(v: MonthView): (r: MonthView)
    requires ValidView(v)
    ensures ValidView(r)
    ensures !TwoDigitYear(v.year) ==>
              r == if v.month == 0 then MonthView(v.year - 1, 11) else MonthView(v.year, v.month - 1)
  {
    ViewOf(v.year, v.month - 1)
  }

  /** The view after the "today" button: the month containing today. */
  function TodayView(today: Date): (r: MonthView)
    requires ValidDate(today)
    ensures ValidView(r) && r.year == today.year && r.month == today.month
  {
    MonthView(today.year, today.month)
  }

  /** Number of days drawn for the view: getDate() of new Date(y, m + 1, 0). */
  function DaysInViewMonth(v: MonthView): (n: int)
    requires ValidView(v)
    ensures 28 <= n <= 31
    ensures !TwoDigitYear(v.year) ==> n == DaysInMonth(v.year, v.month)
  {
    DaysInMonth(JsYear(v.year), v.month)
  }

  /** Weekday (0 = Sunday) of new Date(y, m, 1): the number of leading blank cells. */
  function FirstDayOfMonth(v: MonthView): (w: int)
    requires ValidView(v)
    ensures 0 <= w < 7
  {
    WeekDay(MakeDay(JsYear(v.year), v.month, 1))
  }

  /** One press of "next month" repeated n times. */
  function MonthsAfter(v: MonthView, n: nat): (r: MonthView)
    requires ValidView(v)
    ensures ValidView(r)
    decreases n
  {
    if n == 0 then v else MonthAfter(MonthsAfter(v, n - 1))
  }

  /** One press of "previous month" repeated n times. */
  function MonthsBefore(v: MonthView, n: nat): (r: MonthView)
    requires ValidView(v)
    ensures ValidView(r)
    decreases n
  {
    if n == 0 then v else MonthBefore(MonthsBefore(v, n - 1))
  }

  /** The view k months away from v in the calendar, for any whole k. */
  function Shift(v: MonthView, k: int): MonthView {
    MonthView(v.year + (v.month + k) / 12, (v.month + k) % 12)
  }

  /** A date is marked on a day when day, viewed month and viewed year all equal its own. */
  predicate IsMarkedDay(v: MonthView, day: int, target: Option<Date>)
    ensures IsMarkedDay(v, day, target) ==>
              target.Some? && v == MonthView(target.value.year, target.value.month)
  {
    target.Some? && day == target.value.day &&
    v.month == target.value.month && v.year == target.value.year
  }

  /** The colour class a day cell receives. */
  datatype Highlight = ReEnrollmentDay | RefillDay | TodayDay | PlainDay

  /** Precedence re-enrollment > refill > today > none. */
  function Classify(isToday: bool, isRefill: bool, isReEnrollment: bool): (h: Highlight)
    ensures h == ReEnrollmentDay <==> isReEnrollment
    ensures h == RefillDay <==> isRefill && !isReEnrollment
    ensures h == TodayDay <==> isToday && !isRefill && !isReEnrollment
    ensures h == PlainDay <==> !isToday && !isRefill && !isReEnrollment
  {
    if isReEnrollment then ReEnrollmentDay
    else if isRefill then RefillDay
    else if isToday then TodayDay
    else PlainDay
  }

  function DayHighlight(v: MonthView, day: int, today: Date, refill: Option<Date>,
                        reEnrollment: Option<Date>): (h: Highlight)
    ensures h == ReEnrollmentDay <==> IsMarkedDay(v, day, reEnrollment)
    ensures h == RefillDay <==> IsMarkedDay(v, day, refill) && !IsMarkedDay(v, day, reEnrollment)
    ensures h == PlainDay <==>
              !IsMarkedDay(v, day, Some(today)) && !IsMarkedDay(v, day, refill) && !IsMarkedDay(v, day, reEnrollment)
  {
    Classify(IsMarkedDay(v, day, Some(today)), IsMarkedDay(v, day, refill),
             IsMarkedDay(v, day, reEnrollment))
  }

  datatype Cell = Blank | DayCell(day: int, highlight: Highlight)

  /**
   * The calendar grid: FirstDayOfMonth blank cells, then one cell for each
   * day 1..DaysInViewMonth in increasing order, each with its highlight.
   */
  method RenderCalendar(v: MonthView, today: Date, refill: Option<Date>, reEnrollment: Option<Date>)
    returns (cells: seq<Cell>)
    requires ValidView(v)
    ensures |cells| == FirstDayOfMonth(v) + DaysInViewMonth(v)
    ensures forall i :: 0 <= i < FirstDayOfMonth(v) ==> cells[i] == Blank
    ensures forall i :: FirstDayOfMonth(v) <= i < |cells| ==>
              var day := i - FirstDayOfMonth(v) + 1;
              cells[i] == DayCell(day, DayHighlight(v, day, today, refill, reEnrollment))
  {
    var daysInMonth := DaysInViewMonth(v);
    var firstDay := FirstDayOfMonth(v);
    cells := [];
    var i := 0;
    while i < firstDay
      invariant 0 <= i <= firstDay
      invariant |cells| == i
      invariant forall k :: 0 <= k < i ==> cells[k] == Blank
    {
      cells := cells + [Blank];
      i := i + 1;
    }
    var day := 1;
    while day <= daysInMonth
      invariant 1 <= day <= daysInMonth + 1
      invariant |cells| == firstDay + day - 1
      invariant forall k :: 0 <= k < firstDay ==> cells[k] == Blank
      invariant forall k :: firstDay <= k < |cells| ==>
                  cells[k] == DayCell(k - firstDay + 1,
                                      DayHighlight(v, k - firstDay + 1, today, refill, reEnrollment))
    {
      var isToday := IsMarkedDay(v, day, Some(today));
      var isRefill := IsMarkedDay(v, day, refill);
      var isReEnrollment := IsMarkedDay(v, day, reEnrollment);
      cells := cells + [DayCell(day, Classify(isToday, isRefill, isReEnrollment))];
      day := day + 1;
    }
  }

  /** The calendar component's state: the month it shows. */
  class CalendarView {
    var year: int
    var month: int

    ghost predicate Valid()
      reads this
    {
      0 <= month < 12
    }

    function View(): MonthView
      reads this
    {
      MonthView(year, month)
    }

    /** The calendar opens on the month containing today. */
    constructor (today: Date)
      requires ValidDate(today)
      ensures Valid() && View() == TodayView(today)
    {
      year, month := today.year, today.month;
    }

    method PreviousMonth()
      requires Valid()
      modifies this
      ensures Valid() && View() == MonthBefore(old(View()))
    {
      var v := MonthBefore(MonthView(year, month));
      year, month := v.year, v.month;
    }

    method NextMonth()
      requires Valid()
      modifies this
      ensures Valid() && View() == MonthAfter(old(View()))
    {
      var v := MonthAfter(MonthView(year, month));
      year, month := v.year, v.month;
    }

    method GoToToday(today: Date)
      requires ValidDate(today)
      modifies this
      ensures Valid() && View() == TodayView(today)
    {
      year, month := today.year, today.month;
    }
  }

  // ---------------------------------------------------------------------
  // Lemmas

  /**
   * The view the calendar shows after setCurrentDate(new Date(y, m)) is the
   * month of that instant: the unique valid date with MakeDay's day number is
   * the first of ViewOf(y, m).
   */
  lemma ViewOfIsConstructedMonth(y: int, m: int)
    ensures MakeDay(JsYear(y), m, 1) == DayNumber(Date(ViewOf(y, m).year, ViewOf(y, m).month, 1))
    ensures forall d :: ValidDate(d) && DayNumber(d) == MakeDay(JsYear(y), m, 1) ==>
              d == Date(ViewOf(y, m).year, ViewOf(y, m).month, 1)
  {
    var v := ViewOf(y, m);
    forall d | ValidDate(d) && DayNumber(d) == MakeDay(JsYear(y), m, 1)
      ensures d == Date(v.year, v.month, 1)
    {
      DayNumberInjective(d, Date(v.year, v.month, 1));
    }
  }

  /**
   * The drawn day count is what the source computes, getDate() of
   * new Date(y, m + 1, 0): that instant is the last day of the viewed month.
   */
  lemma DaysInViewMonthIsDayZero(v: MonthView)
    requires ValidView(v)
    ensures ValidDate(Date(JsYear(v.year), v.month, DaysInViewMonth(v)))
    ensures MakeDay(JsYear(v.year), v.month + 1, 0) ==
            DayNumber(Date(JsYear(v.year), v.month, DaysInViewMonth(v)))
  {
    DayZeroOfNextMonth(JsYear(v.year), v.month);
  }

  /** The single-step shift: one month forward from Shift(v, k). */
  lemma ShiftStep(v: MonthView, k: int)
    requires ValidView(v)
    ensures var w := Shift(v, k);
            Shift(v, k + 1) == if w.month == 11 then MonthView(w.year + 1, 0) else MonthView(w.year, w.month + 1)
  {
    var q, r := (v.month + k) / 12, (v.month + k) % 12;
    assert v.month + k + 1 == 12 * q + r + 1;
    if r == 11 {
      assert (v.month + k + 1) / 12 == q + 1 && (v.month + k + 1) % 12 == 0;
    } else {
      assert (v.month + k + 1) / 12 == q && (v.month + k + 1) % 12 == r + 1;
    }
  }

  /** Moving forward n months is a shift by n, as long as no two-digit year is met. */
  lemma {:induction false} MonthsAfterShift(v: MonthView, n: nat)
    requires ValidView(v) && v.year >= 100
    ensures MonthsAfter(v, n) == Shift(v, n)
    decreases n
  {
    if n > 0 {
      MonthsAfterShift(v, n - 1);
      ShiftStep(v, n - 1);
      assert (v.month + n - 1) / 12 >= 0;
    }
  }

  /** Moving back n months is a shift by -n, as long as the result stays after year 99. */
  lemma {:induction false} MonthsBeforeShift(v: MonthView, n: nat)
    requires ValidView(v) && Shift(v, -(n as int)).year >= 100
    ensures MonthsBefore(v, n) == Shift(v, -(n as int))
    decreases n
  {
    if n > 0 {
      assert (v.month - n + 1) / 12 >= (v.month - n) / 12;
      MonthsBeforeShift(v, n - 1);
      ShiftStep(v, -(n as int));
    }
  }

  /** Next then previous restores the view. */
  lemma BeforeAfterRoundTrip(v: MonthView)
    requires ValidView(v) && v.year >= 100
    ensures MonthBefore(MonthAfter(v)) == v
  {
  }

  /** Previous then next restores the view. */
  lemma AfterBeforeRoundTrip(v: MonthView)
    requires ValidView(v) && (v.year >= 101 || (v.year == 100 && v.month >= 1))
    ensures MonthAfter(MonthBefore(v)) == v
  {
  }

  /** n presses of "next month" followed by n presses of "previous month" restore the view. */
  lemma MonthsRoundTrip(v: MonthView, n: nat)
    requires ValidView(v) && v.year >= 100
    ensures MonthsBefore(MonthsAfter(v, n), n) == v
  {
    MonthsAfterShift(v, n);
    var w := Shift(v, n);
    MonthShiftBack(v.month, n);
    assert Shift(w, -(n as int)) == v;
    MonthsBeforeShift(w, n);
  }

  /** Shifting a month index forward by n and then back by n returns it, its year carry undone. */
  lemma MonthShiftBack(m: int, n: int)
    requires 0 <= m < 12
    ensures ((m + n) % 12 - n) / 12 == -((m + n) / 12)
    ensures ((m + n) % 12 - n) % 12 == m
  {
    var q, r := (m + n) / 12, (m + n) % 12;
    assert r - n == m + 12 * (-q);
  }

  /** Twelve presses of "next month" (k times over) show the same month k years later. */
  lemma YearsAfter(v: MonthView, k: nat)
    requires ValidView(v) && v.year >= 100
    ensures MonthsAfter(v, 12 * k) == MonthView(v.year + k, v.month)
  {
    MonthsAfterShift(v, 12 * k);
    assert v.month + 12 * k == 12 * k + v.month;
    assert (v.month + 12 * k) / 12 == k && (v.month + 12 * k) % 12 == v.month;
  }

  /** Around year 99 the Date constructor's two-digit-year rule breaks navigation. */
  lemma TwoDigitYearNavigation()
    ensures MonthBefore(MonthView(100, 0)) == MonthView(99, 11)
    ensures MonthAfter(MonthView(99, 11)) == MonthView(2000, 0)
  {
  }

  /** Gregorian month lengths at the leap-year boundaries. */
  lemma LeapYearMonthLengths()
    ensures DaysInViewMonth(MonthView(2024, 1)) == 29
    ensures DaysInViewMonth(MonthView(2023, 1)) == 28
    ensures DaysInViewMonth(MonthView(1900, 1)) == 28
    ensures DaysInViewMonth(MonthView(2000, 1)) == 29
  {
  }

  /** Consecutive months' first weekdays are the earlier month's length apart. */
  lemma FirstDayOfMonthAfter(v: MonthView)
    requires ValidView(v) && v.year >= 100
    ensures FirstDayOfMonth(MonthAfter(v)) == (FirstDayOfMonth(v) + DaysInViewMonth(v)) % 7
  {
    var next, first := WeekDay(MakeDay(v.year, v.month + 1, 1)), WeekDay(MakeDay(v.year, v.month, 1));
    assert FirstDayOfMonth(MonthAfter(v)) == next by { FirstDayOfMonthAfterIs(v); }
    assert FirstDayOfMonth(v) == first && DaysInViewMonth(v) == DaysInMonth(v.year, v.month) by {
      FirstDayOfViewIs(v);
    }
    assert next == (first + DaysInMonth(v.year, v.month)) % 7 by { FirstOfNextMonthWeekDay(v.year, v.month); }
  }

  /** Outside two-digit years, a view's first weekday and length are those of its own year and month. */
  lemma FirstDayOfViewIs(v: MonthView)
    requires ValidView(v) && v.year >= 100
    ensures FirstDayOfMonth(v) == WeekDay(MakeDay(v.year, v.month, 1))
    ensures DaysInViewMonth(v) == DaysInMonth(v.year, v.month)
  {
    assert JsYear(v.year) == v.year;
  }

  /** Outside two-digit years, the month after v starts on the day new Date(y, m + 1, 1) names. */
  lemma FirstDayOfMonthAfterIs(v: MonthView)
    requires ValidView(v) && v.year >= 100
    ensures FirstDayOfMonth(MonthAfter(v)) == WeekDay(MakeDay(v.year, v.month + 1, 1))
  {
    var w := MonthAfter(v);
    assert w.year == v.year + (v.month + 1) / 12 && w.month == (v.month + 1) % 12;
    assert JsYear(w.year) == w.year;
    MakeDayNormalises(w.year, w.month, v.year, v.month + 1, 1);
  }

  /** 1970-01-01 was a Thursday. */
  lemma FirstWeekDay1970()
    ensures FirstDayOfMonth(MonthView(1970, 0)) == 4
  {
    FirstDayOfViewIs(MonthView(1970, 0));
    MakeDayNormal(Date(1970, 0, 1));
    assert DayNumber(Date(1970, 0, 1)) == 0;
  }

  /** 2000-01-01 was a Saturday. */
  lemma FirstWeekDay2000()
    ensures FirstDayOfMonth(MonthView(2000, 0)) == 6
  {
    assert JsYear(2000) == 2000;
    assert DaysBeforeMonth(2000, 0) == 0;
    assert DayFromYear(2000) + DaysBeforeMonth(2000, 0) == 10957;
    assert MakeDay(2000, 0, 1) == 10957;
  }

  /** 2024-02-01 was a Thursday. */
  lemma FirstWeekDay2024()
    ensures FirstDayOfMonth(MonthView(2024, 1)) == 4
  {
    assert JsYear(2024) == 2024;
    assert DaysBeforeMonth(2024, 1) == 31;
    assert DayFromYear(2024) + DaysBeforeMonth(2024, 1) == 19754;
    assert MakeDay(2024, 1, 1) == 19754;
  }

  /**
   * A valid date in the viewed month is marked on exactly one cell of the
   * grid, the one for its own day; a date outside the view is marked nowhere.
   */
  lemma MarkedExactlyOnItsDay(v: MonthView, t: Date, day: int)
    requires ValidView(v) && ValidDate(t) && !TwoDigitYear(v.year)
    ensures IsMarkedDay(v, day, Some(t)) <==> v == MonthView(t.year, t.month) && day == t.day
    ensures v == MonthView(t.year, t.month) ==> 1 <= t.day <= DaysInViewMonth(v)
  {
  }

  /** A day that is today, the refill date and the re-enrollment date shows as re-enrollment. */
  lemma ReEnrollmentWinsOnSharedDay(v: MonthView, t: Date)
    requires ValidDate(t) && v == MonthView(t.year, t.month)
    ensures DayHighlight(v, t.day, t, Some(t), Some(t)) == ReEnrollmentDay
  {
  }

  /** A null refill or re-enrollment date never marks a day. */
  lemma NullDateNeverMarks(v: MonthView, day: int, today: Date)
    ensures DayHighlight(v, day, today, None, None) ==
            (if IsMarkedDay(v, day, Some(today)) then TodayDay else PlainDay)
  {
  }
}
