/**
 * Calendar arithmetic of the JavaScript `Date` that both screens reach through dayjs.
 * An instant is a whole number of milliseconds since 1970-01-01T00:00; a date is a
 * (year, month, day) triple with months numbered from 1. Time zones are not modelled:
 * local midnight is taken to be UTC midnight.
 */
module Calendar {

  type Instant = int

  const DayMs: int := 86_400_000

  datatype Date = Date(year: int, month: int, day: int)

  /** Gregorian leap years. */
  predicate IsLeapYear(y: int) {
    y % 4 == 0 && (y % 100 != 0 || y % 400 == 0)
  }

  function DaysInYear(y: int): int {
    if IsLeapYear(y) then 366 else 365
  }

  /** The last day-of-month of month `m` of year `y` (dayjs `endOf("month").get("date")`). */
  function DaysInMonth(y: int, m: int): (n: int)
    requires 1 <= m <= 12
    ensures 28 <= n <= 31
    ensures m == 2 ==> (n == 29 <==> IsLeapYear(y))
    ensures m != 2 ==> (n == 30 <==> m in {4, 6, 9, 11})
    ensures m == 2 && !IsLeapYear(y) ==> n == 28
    ensures m != 2 && n != 30 ==> n == 31
  {
    if m == 2 then (if IsLeapYear(y) then 29 else 28)
    else if m == 4 || m == 6 || m == 9 || m == 11 then 30
    else 31
  }

  predicate ValidDate(d: Date) {
    1 <= d.month <= 12 && 1 <= d.day <= DaysInMonth(d.year, d.month)
  }

  /** Days of year `y` before the first of month `m` (m == 13 stands for the next 1 January). */
  function DaysBeforeMonth(y: int, m: int): nat
    requires 1 <= m <= 13
  {
    if m == 1 then 0 else DaysBeforeMonth(y, m - 1) + DaysInMonth(y, m - 1)
  }

  /** Days from 1970-01-01 to 1 January of year `y` (negative before 1970). */
  function YearStartDay(y: int): int
    decreases if y >= 1970 then y - 1970 else 1970 - y
  {
    if y == 1970 then 0
    else if y > 1970 then YearStartDay(y - 1) + DaysInYear(y - 1)
    else YearStartDay(y + 1) - DaysInYear(y)
  }

  /**
   * Days since 1970-01-01 of `new Date(year, month - 1, day)`: a month outside 1..12
   * carries into the year and a day outside the month carries into the following or
   * preceding months, as the Date constructor does.
   */
  function DayNumber(d: Date): int {
    var y := d.year + (d.month - 1) / 12;
    var m := (d.month - 1) % 12 + 1;
    YearStartDay(y) + DaysBeforeMonth(y, m) + d.day - 1
  }

  /** The instant of local midnight that starts date `d`. */
  function DateInstant(d: Date): Instant {
    DayNumber(d) * DayMs
  }

  /** dayjs `startOf("day")`: the midnight at or before `t`. */
  function StartOfDay(t: Instant): (r: Instant)
    ensures r % DayMs == 0
    ensures r <= t < r + DayMs
  {
    t - t % DayMs
  }

  /**
   * A calendar day is marked when some completed date denotes the same instant
   * (`completedDates.some(item => dayjs(item).isSame(dayjs(date)))`).
   */
  function Marked(dates: seq<Instant>, day: Instant): (marked: bool)
    ensures marked <==> exists i :: 0 <= i < |dates| && dates[i] == day
  {
    if dates == [] then false else dates[0] == day || Marked(dates[1..], day)
  }

  lemma YearStartStep(y: int)
    ensures YearStartDay(y + 1) == YearStartDay(y) + DaysInYear(y)
  {
  }

  /** The twelve month lengths add up to the length of the year. */
  lemma MonthsFillYear(y: int)
    ensures DaysBeforeMonth(y, 13) == DaysInYear(y)
  {
    var feb := DaysInMonth(y, 2);
    assert DaysBeforeMonth(y, 1) == 0;
    assert DaysBeforeMonth(y, 2) == 31;
    assert DaysBeforeMonth(y, 3) == 31 + feb;
    assert DaysBeforeMonth(y, 4) == 62 + feb;
    assert DaysBeforeMonth(y, 5) == 92 + feb;
    assert DaysBeforeMonth(y, 6) == 123 + feb;
    assert DaysBeforeMonth(y, 7) == 153 + feb;
    assert DaysBeforeMonth(y, 8) == 184 + feb;
    assert DaysBeforeMonth(y, 9) == 215 + feb;
    assert DaysBeforeMonth(y, 10) == 245 + feb;
    assert DaysBeforeMonth(y, 11) == 276 + feb;
    assert DaysBeforeMonth(y, 12) == 306 + feb;
  }

  lemma {:induction false} DaysBeforeMonthGrows(y: int, m1: int, m2: int)
    requires 1 <= m1 < m2 <= 13
    ensures DaysBeforeMonth(y, m1) + DaysInMonth(y, m1) <= DaysBeforeMonth(y, m2)
    decreases m2
  {
    if m1 + 1 < m2 {
      DaysBeforeMonthGrows(y, m1, m2 - 1);
    }
  }

  lemma {:induction false} YearStartGrows(y1: int, y2: int)
    requires y1 < y2
    ensures YearStartDay(y1) + DaysInYear(y1) <= YearStartDay(y2)
    decreases y2 - y1
  {
    YearStartStep(y1);
    if y1 + 1 < y2 {
      YearStartGrows(y1 + 1, y2);
    }
  }

  /** For a month in 1..12 nothing carries into the year. */
  lemma DayNumberOfMonth(d: Date)
    requires 1 <= d.month <= 12
    ensures DayNumber(d) == YearStartDay(d.year) + DaysBeforeMonth(d.year, d.month) + d.day - 1
  {
    assert (d.month - 1) / 12 == 0 && (d.month - 1) % 12 == d.month - 1;
  }

  /** A valid date's day number lies inside its own year. */
  lemma DayNumberInYear(d: Date)
    requires ValidDate(d)
    ensures YearStartDay(d.year) <= DayNumber(d) < YearStartDay(d.year) + DaysInYear(d.year)
  {
    DayNumberOfMonth(d);
    MonthsFillYear(d.year);
    DaysBeforeMonthGrows(d.year, d.month, 13);
  }

  /** Day numbers of valid dates follow the calendar order. */
  lemma DayNumberOrdered(a: Date, b: Date)
    requires ValidDate(a) && ValidDate(b)
    requires a.year < b.year
          || (a.year == b.year && a.month < b.month)
          || (a.year == b.year && a.month == b.month && a.day < b.day)
    ensures DayNumber(a) < DayNumber(b)
  {
    DayNumberInYear(a);
    DayNumberInYear(b);
    if a.year < b.year {
      YearStartGrows(a.year, b.year);
    } else {
      DayNumberOfMonth(a);
      DayNumberOfMonth(b);
      if a.month < b.month {
        DaysBeforeMonthGrows(a.year, a.month, b.month);
      }
    }
  }

  /** Distinct valid dates start at distinct instants. */
  lemma DateInstantInjective(a: Date, b: Date)
    requires ValidDate(a) && ValidDate(b)
    requires DateInstant(a) == DateInstant(b)
    ensures a == b
  {
    if a != b {
      if a.year < b.year || (a.year == b.year && a.month < b.month)
         || (a.year == b.year && a.month == b.month && a.day < b.day) {
        DayNumberOrdered(a, b);
      } else {
        DayNumberOrdered(b, a);
      }
    }
  }

  /** A date's instant is already the start of its day. */
  lemma DateInstantIsStartOfDay(d: Date)
    ensures StartOfDay(DateInstant(d)) == DateInstant(d)
  {
    var k := DayNumber(d);
    assert (k * DayMs) % DayMs == 0;
  }

  /**
   * `DaysInMonth(y, m)` is the month's last day: the day after it, in Date
   * arithmetic, is the first of the following month.
   */
  lemma LastDayOfMonth(y: int, m: int)
    requires 1 <= m <= 12
    ensures ValidDate(Date(y, m, DaysInMonth(y, m)))
    ensures DayNumber(Date(y, m, DaysInMonth(y, m) + 1)) == DayNumber(Date(y, m + 1, 1))
  {
    var n := DaysInMonth(y, m);
    DayNumberOfMonth(Date(y, m, n + 1));
    assert DaysBeforeMonth(y, m + 1) == DaysBeforeMonth(y, m) + n;
    if m == 12 {
      MonthsFillYear(y);
      YearStartStep(y);
      assert DayNumber(Date(y, 13, 1)) == YearStartDay(y + 1);
    } else {
      DayNumberOfMonth(Date(y, m + 1, 1));
    }
  }
}
