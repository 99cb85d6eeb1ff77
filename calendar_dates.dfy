/**
 * Gregorian date arithmetic as JavaScript's Date object performs it in local
 * time: day numbers counted from 1970-01-01 (ECMAScript's Day(t)), the
 * month-overflow rule of its MakeDay operation, and the weekday of a day
 * number. Months are JavaScript month indices 0..11, as getMonth returns them.
 */
module CalendarDates {

  /** A date as read back through getFullYear, getMonth and getDate. */
  datatype Date = Date(year: int, month: int, day: int)

  predicate IsLeapYear(y: int) {
    y % 4 == 0 && (y % 100 != 0 || y % 400 == 0)
  }

  /** Length of month m (0 = January) of year y in the Gregorian calendar. */
  function DaysInMonth(y: int, m: int): (n: int)
    requires 0 <= m < 12
    ensures 28 <= n <= 31
    ensures n == 29 <==> m == 1 && IsLeapYear(y)
    ensures n == 28 <==> m == 1 && !IsLeapYear(y)
    ensures n == 30 <==> m in {3, 5, 8, 10}
  {
    if m == 1 then (if IsLeapYear(y) then 29 else 28)
    else if m == 3 || m == 5 || m == 8 || m == 10 then 30
    else 31
  }

  function DaysInYear(y: int): int {
    if IsLeapYear(y) then 366 else 365
  }

  predicate ValidDate(d: Date) {
    0 <= d.month < 12 && 1 <= d.day <= DaysInMonth(d.year, d.month)
  }

  /** ECMAScript DayFromYear: the day number of January 1 of year y. */
  function DayFromYear(y: int): int {
    365 * (y - 1970) + (y - 1969) / 4 - (y - 1901) / 100 + (y - 1601) / 400
  }

  /** Days of year y that lie before the first of month m (m = 12: the whole year). */
  function DaysBeforeMonth(y: int, m: int): int
    requires 0 <= m <= 12
  {
    [0, 31, 59, 90, 120, 151, 181, 212, 243, 273, 304, 334, 365][m]
      + (if IsLeapYear(y) && m >= 2 then 1 else 0)
  }

  /** The day number of a date given by its normalised fields. */
  function DayNumber(d: Date): int
    requires 0 <= d.month < 12
  {
    DayFromYear(d.year) + DaysBeforeMonth(d.year, d.month) + d.day - 1
  }

  /**
   * ECMAScript MakeDay(year, month, date): a month outside 0..11 carries into
   * the year, and a day outside the month runs into the neighbouring months.
   */
  function MakeDay(y: int, m: int, d: int): (r: int)
    ensures 0 <= m < 12 ==> r == DayNumber(Date(y, m, d))
  {
    var carry := m / 12;
    assert 0 <= m < 12 ==> carry == 0 && m % 12 == m;
    DayFromYear(y + carry) + DaysBeforeMonth(y + carry, m % 12) + d - 1
  }

  /** The Date constructor reads a year argument 0..99 as 1900..1999. */
  function JsYear(y: int): (r: int)
    ensures 0 <= y <= 99 ==> r == 1900 + y
    ensures !(0 <= y <= 99) ==> r == y
  {
    if 0 <= y <= 99 then 1900 + y else y
  }

  /** ECMAScript WeekDay: 0 = Sunday; 1970-01-01 (day 0) was a Thursday. */
  function WeekDay(t: int): (w: int)
    ensures 0 <= w < 7
  {
    (t + 4) % 7
  }

  /** The day after d, rolling over month and year ends. */
  function NextDay(d: Date): (r: Date)
    requires ValidDate(d)
    ensures ValidDate(r)
  {
    if d.day < DaysInMonth(d.year, d.month) then Date(d.year, d.month, d.day + 1)
    else if d.month < 11 then Date(d.year, d.month + 1, 1)
    else Date(d.year + 1, 0, 1)
  }

  /** d moved forward by n days (what setDate(getDate() + n) normalises to). */
  function AddDays(d: Date, n: nat): (r: Date)
    requires ValidDate(d)
    ensures ValidDate(r)
    decreases n
  {
    if n == 0 then d else AddDays(NextDay(d), n - 1)
  }

  // ---------------------------------------------------------------------
  // Lemmas

  /** Consecutive January firsts are a year length apart. */
  lemma YearLength(y: int)
    ensures DayFromYear(y + 1) == DayFromYear(y) + DaysInYear(y)
  {
    LeapDayCount(y);
    CenturyCount(y);
    QuadCenturyCount(y);
    DivisibilityChain(y);
  }

  /** A year divisible by 400 is divisible by 100, and one divisible by 100 is divisible by 4. */
  lemma DivisibilityChain(y: int)
    ensures y % 400 == 0 ==> y % 100 == 0
    ensures y % 100 == 0 ==> y % 4 == 0
  {
    if y % 400 == 0 {
      CenturyOfQuadCentury(y);
    }
    if y % 100 == 0 {
      FourOfCentury(y);
    }
  }

  lemma CenturyOfQuadCentury(y: int)
    requires y % 400 == 0
    ensures y % 100 == 0
  {
    var k, j := y / 400, y / 100;
    assert y == 400 * k && y == 100 * j + y % 100;
    assert 100 * (4 * k - j) == y % 100;
  }

  lemma FourOfCentury(y: int)
    requires y % 100 == 0
    ensures y % 4 == 0
  {
    var k, j := y / 100, y / 4;
    assert y == 100 * k && y == 4 * j + y % 4;
    assert 4 * (25 * k - j) == y % 4;
  }

  /** The leap-day term of DayFromYear grows by one past a year divisible by 4. */
  lemma LeapDayCount(y: int)
    ensures (y - 1968) / 4 == (y - 1969) / 4 + (if y % 4 == 0 then 1 else 0)
  {
    var q := (y - 1969) / 4;
    assert y - 1969 == 4 * q + (y - 1969) % 4;
    assert y - 1968 == 4 * (q - 492) + (y - 1969) % 4 + 1 + 4 * 492;
  }

  /** The century term of DayFromYear grows by one past a year divisible by 100. */
  lemma CenturyCount(y: int)
    ensures (y - 1900) / 100 == (y - 1901) / 100 + (if y % 100 == 0 then 1 else 0)
  {
    var q := (y - 1901) / 100;
    assert y - 1901 == 100 * q + (y - 1901) % 100;
  }

  /** The 400-year term of DayFromYear grows by one past a year divisible by 400. */
  lemma QuadCenturyCount(y: int)
    ensures (y - 1600) / 400 == (y - 1601) / 400 + (if y % 400 == 0 then 1 else 0)
  {
    var q := (y - 1601) / 400;
    assert y - 1601 == 400 * q + (y - 1601) % 400;
  }

  lemma {:induction false} DayFromYearMonotone(a: int, b: int)
    requires a < b
    ensures DayFromYear(a + 1) <= DayFromYear(b)
    decreases b - a
  {
    if a + 1 < b {
      DayFromYearMonotone(a + 1, b);
      YearLength(a + 1);
    }
  }

  /** The days of a valid date lie within its own year. */
  lemma DayNumberWithinYear(d: Date)
    requires ValidDate(d)
    ensures DayFromYear(d.year) <= DayNumber(d) < DayFromYear(d.year + 1)
  {
    YearLength(d.year);
  }

  /** Distinct valid dates have distinct day numbers. */
  lemma DayNumberInjective(a: Date, b: Date)
    requires ValidDate(a) && ValidDate(b)
    requires DayNumber(a) == DayNumber(b)
    ensures a == b
  {
    if a.year < b.year || (a.year == b.year && a.month < b.month) {
      DayNumberOrdered(a, b);
    } else if b.year < a.year || (a.year == b.year && b.month < a.month) {
      DayNumberOrdered(b, a);
    }
  }

  /** A valid date in an earlier year, or an earlier month of the same year, has a smaller day number. */
  lemma DayNumberOrdered(a: Date, b: Date)
    requires ValidDate(a) && ValidDate(b)
    requires a.year < b.year || (a.year == b.year && a.month < b.month)
    ensures DayNumber(a) < DayNumber(b)
  {
    if a.year < b.year {
      DayNumberWithinYear(a);
      DayFromYearMonotone(a.year, b.year);
    } else {
      MonthStartsAfterMonth(a.year, a.month, b.month);
    }
  }

  /** Month n of a year starts no earlier than the day after the last of an earlier month m. */
  lemma {:induction false} MonthStartsAfterMonth(y: int, m: int, n: int)
    requires 0 <= m < n <= 12
    ensures DaysBeforeMonth(y, m) + DaysInMonth(y, m) <= DaysBeforeMonth(y, n)
    decreases n - m
  {
    if m + 1 < n {
      MonthStartsAfterMonth(y, m + 1, n);
    }
  }

  /** NextDay is the day with the next day number. */
  lemma NextDayNumber(d: Date)
    requires ValidDate(d)
    ensures DayNumber(NextDay(d)) == DayNumber(d) + 1
  {
    YearLength(d.year);
  }

  lemma {:induction false} AddDaysNumber(d: Date, n: nat)
    requires ValidDate(d)
    ensures DayNumber(AddDays(d, n)) == DayNumber(d) + n
    decreases n
  {
    if n > 0 {
      NextDayNumber(d);
      AddDaysNumber(NextDay(d), n - 1);
    }
  }

  /** MakeDay agrees with DayNumber on normalised fields. */
  lemma MakeDayNormal(d: Date)
    requires 0 <= d.month < 12
    ensures MakeDay(d.year, d.month, d.day) == DayNumber(d)
  {
  }

  /** MakeDay sees its year and month only through the year and month they normalise to. */
  lemma MakeDayNormalises(y1: int, m1: int, y2: int, m2: int, d: int)
    requires 0 <= m1 < 12
    requires y1 == y2 + m2 / 12 && m1 == m2 % 12
    ensures MakeDay(y1, m1, d) == MakeDay(y2, m2, d)
  {
    assert m1 / 12 == 0 && m1 % 12 == m1;
  }

  /**
   * The source's "day 0 of the next month": MakeDay(y, m + 1, 0) is the day
   * number of the last day of month m, so its getDate() is DaysInMonth(y, m).
   */
  lemma DayZeroOfNextMonth(y: int, m: int)
    requires 0 <= m < 12
    ensures ValidDate(Date(y, m, DaysInMonth(y, m)))
    ensures MakeDay(y, m + 1, 0) == DayNumber(Date(y, m, DaysInMonth(y, m)))
    ensures forall d :: ValidDate(d) && DayNumber(d) == MakeDay(y, m + 1, 0) ==>
              d == Date(y, m, DaysInMonth(y, m))
  {
    MonthLengthStep(y, m, 0);
    MakeDayNormal(Date(y, m, 0));
    forall d | ValidDate(d) && DayNumber(d) == MakeDay(y, m + 1, 0)
      ensures d == Date(y, m, DaysInMonth(y, m))
    {
      DayNumberInjective(d, Date(y, m, DaysInMonth(y, m)));
    }
  }

  /** The first of the month after (y, m) falls DaysInMonth(y, m) weekdays later. */
  lemma FirstOfNextMonthWeekDay(y: int, m: int)
    requires 0 <= m < 12
    ensures WeekDay(MakeDay(y, m + 1, 1)) == (WeekDay(MakeDay(y, m, 1)) + DaysInMonth(y, m)) % 7
  {
    MonthLengthStep(y, m, 1);
    WeekDayShift(MakeDay(y, m, 1), DaysInMonth(y, m));
  }

  /** Moving the month on by one moves the day number on by the month's length. */
  lemma MonthLengthStep(y: int, m: int, d: int)
    requires 0 <= m < 12
    ensures MakeDay(y, m + 1, d) == MakeDay(y, m, d) + DaysInMonth(y, m)
  {
    MakeDayNormal(Date(y, m, d));
    MonthStart(y, m);
    if m < 11 {
      MakeDayNormal(Date(y, m + 1, d));
    } else {
      MakeDayNormalises(y + 1, 0, y, m + 1, d);
      MakeDayNormal(Date(y + 1, 0, d));
      YearLength(y);
    }
  }

  /** The first of month m + 1 comes DaysInMonth(y, m) days after the first of month m. */
  lemma MonthStart(y: int, m: int)
    requires 0 <= m < 12
    ensures DaysBeforeMonth(y, m + 1) == DaysBeforeMonth(y, m) + DaysInMonth(y, m)
    ensures m == 11 ==> DaysBeforeMonth(y, m + 1) == DaysInYear(y)
  {
  }

  lemma WeekDayShift(t: int, k: int)
    ensures WeekDay(t + k) == (WeekDay(t) + k) % 7
  {
    var q := (t + 4) / 7;
    assert t + 4 == 7 * q + WeekDay(t);
    assert t + k + 4 == 7 * q + (WeekDay(t) + k);
  }
}
