/** The period boundaries the dashboard computes from the clock (today, yesterday,
    this and last week, this and last month, and the start of the 7-day chart). */
module Periods {
  import opened Calendar

  datatype Boundaries = Boundaries(
    today: Instant,
    tomorrow: Instant,
    yesterday: Instant,
    startOfWeek: Instant,
    startOfLastWeek: Instant,
    endOfLastWeek: Instant,
    startOfMonth: Instant,
    startOfLastMonth: Instant,
    endOfLastMonth: Instant,
    sevenDaysAgo: Instant)

  /** Year and month of the month before month m of year y, January wrapping to
      December of the year before. */
  function PreviousMonth(y: int, m: int): (r: (int, int))
    requires 0 <= m < 12
    ensures 0 <= r.1 < 12
    ensures m > 0 ==> r == (y, m - 1)
    ensures m == 0 ==> r == (y - 1, 11)
  {
    if m == 0 then (y - 1, 11) else (y, m - 1)
  }

  /** The day `setDate(getDate() - getDay() + 1)` moves to: the Monday of the
      current week, except on a Sunday, where it is the following day. */
  function WeekStartDay(now: Clock): (d: Day)
    requires ValidClock(now)
    ensures Weekday(d) == 1
    ensures Weekday(Today(now)) != 0 ==> Today(now) - 6 <= d <= Today(now)
    ensures Weekday(Today(now)) == 0 ==> d == Today(now) + 1
  {
    var day := Today(now);
    var wd := Weekday(day);
    ShiftDate(now.year, now.month, now.date, 1 - wd);
    MondayOf(day);
    MakeDay(now.year, now.month, now.date - wd + 1)
  }

  /** The day `new Date(getFullYear(), getMonth() - 1, 1)` lands on. */
  function LastMonthStartDay(now: Clock): (d: Day)
    requires ValidClock(now)
    ensures var (py, pm) := PreviousMonth(now.year, now.month);
            d == DaysFromCivil(py, pm, 1)
            && MakeDay(now.year, now.month, 1) - d == DaysInMonth(py, pm)
  {
    var (py, pm) := PreviousMonth(now.year, now.month);
    MonthLength(py, pm);
    PreviousMonthDay(now.year, now.month);
    MakeDay(now.year, now.month - 1, 1)
  }

  /** Month m - 1 of year y, as MakeDay normalises it, is the previous month, whose
      following month is month m again. */
  lemma PreviousMonthDay(y: int, m: int)
    requires 0 <= m < 12
    ensures var (py, pm) := PreviousMonth(y, m);
            && MakeDay(y, m - 1, 1) == DaysFromCivil(py, pm, 1)
            && MakeDay(py, pm + 1, 1) == MakeDay(y, m, 1)
  {
    if m == 0 {
      assert MakeDay(y - 1, 12, 1) == DaysFromCivil(y, 0, 1);
    } else {
      assert MakeDay(y, m - 1, 1) == DaysFromCivil(y, m - 1, 1);
    }
  }

  /** The boundaries as the dashboard sets them: midnights reached by moving the date
      (`setDate`) and clearing the time (`setHours(0, 0, 0, 0)`). */
  function BoundariesAt(now: Clock): (b: Boundaries)
    requires ValidClock(now)
    ensures b.today == Midnight(Today(now)) && b.today <= Now(now) < b.tomorrow
    ensures b.tomorrow - b.today == DayMs && b.today - b.yesterday == DayMs
    ensures Weekday(DayOf(b.startOfWeek)) == 1 && b.startOfWeek == Midnight(DayOf(b.startOfWeek))
    ensures Weekday(Today(now)) != 0 ==> b.startOfWeek <= b.today < b.startOfWeek + 7 * DayMs
    ensures Weekday(Today(now)) == 0 ==> b.startOfWeek == b.tomorrow
    ensures b.endOfLastWeek == b.startOfWeek && b.startOfWeek - b.startOfLastWeek == 7 * DayMs
    ensures b.startOfMonth == Midnight(MakeDay(now.year, now.month, 1))
    ensures b.today - b.startOfMonth == (now.date - 1) * DayMs
    ensures b.endOfLastMonth == b.startOfMonth
    ensures var (py, pm) := PreviousMonth(now.year, now.month);
            b.startOfLastMonth == Midnight(DaysFromCivil(py, pm, 1))
            && b.startOfMonth - b.startOfLastMonth == DaysInMonth(py, pm) * DayMs
    ensures b.today - b.sevenDaysAgo == 6 * DayMs
  {
    var day := Today(now);
    var weekStart := WeekStartDay(now);
    var startOfWeek := Midnight(weekStart);
    DayOfWithin(weekStart, 0);
    assert Midnight(weekStart) + 0 == startOfWeek;
    assert DayOf(startOfWeek) == weekStart;
    Boundaries(
      Midnight(day), Midnight(day + 1), Midnight(day - 1),
      startOfWeek, Midnight(DayOf(startOfWeek) - 7), startOfWeek,
      Midnight(MakeDay(now.year, now.month, 1)), Midnight(LastMonthStartDay(now)),
      Midnight(MakeDay(now.year, now.month, 1)), Midnight(day - 6))
  }
}
