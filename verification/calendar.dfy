/** Local calendar arithmetic as `Date` performs it in a fixed time zone without
    daylight-saving changes. An instant is a count of milliseconds on the local wall
    clock since 1970-01-01 00:00; a day is a day number counted from that date. Civil
    dates follow the proleptic Gregorian calendar, months are numbered 0..11 as
    `getMonth()` numbers them, and out-of-range months and dates are normalised
    the way ECMAScript's MakeDay normalises them. */
module Calendar {

  type Instant = int
  type Day = int

  /** Milliseconds in a day. */
  const DayMs: int := 86_400_000

  predicate IsLeapYear(y: int)
  {
    y % 4 == 0 && (y % 100 != 0 || y % 400 == 0)
  }

  function DaysInYear(y: int): int
  {
    if IsLeapYear(y) then 366 else 365
  }

  function DaysInMonth(y: int, m: int): int
    requires 0 <= m < 12
  {
    if m == 1 then (if IsLeapYear(y) then 29 else 28)
    else if m == 3 || m == 5 || m == 8 || m == 10 then 30
    else 31
  }

  /** Days in months 0 .. m-1 of year y. */
  function DaysBeforeMonth(y: int, m: int): int
    requires 0 <= m <= 12
  {
    if m == 0 then 0 else DaysBeforeMonth(y, m - 1) + DaysInMonth(y, m - 1)
  }

  /** Leap years among 1 .. y-1 (counted with floor division, so it also works below 1). */
  function LeapYearsBefore(y: int): int
  {
    (y - 1) / 4 - (y - 1) / 100 + (y - 1) / 400
  }

  /** Day number of January 1 of year y. */
  function DaysBeforeYear(y: int): Day
  {
    365 * (y - 1970) + LeapYearsBefore(y) - LeapYearsBefore(1970)
  }

  /** Day number of the civil date y-(m+1)-d, for a month in range. */
  function DaysFromCivil(y: int, m: int, d: int): Day
    requires 0 <= m < 12
  {
    DaysBeforeYear(y) + DaysBeforeMonth(y, m) + d - 1
  }

  /** `new Date(y, m, d)` at day granularity: the month carries into the year and
      the date carries into the following days, whatever their range. */
  function MakeDay(y: int, m: int, d: int): (r: Day)
    ensures 0 <= m < 12 ==> r == DaysFromCivil(y, m, d)
    ensures m == -1 ==> r == DaysFromCivil(y - 1, 11, d)
  {
    DaysFromCivil(y + m / 12, m % 12, d)
  }

  /** 00:00:00.000 of day d (`setHours(0, 0, 0, 0)`). */
  function Midnight(d: Day): Instant
  {
    d * DayMs
  }

  /** 23:59:59.999 of day d (`setHours(23, 59, 59, 999)`). */
  function LastInstant(d: Day): (r: Instant)
    ensures Midnight(d) < r < Midnight(d + 1)
    ensures r + 1 == Midnight(d + 1)
  {
    d * DayMs + 23 * 3_600_000 + 59 * 60_000 + 59 * 1000 + 999
  }

  /** The day an instant falls on. */
  function DayOf(t: Instant): (d: Day)
    ensures Midnight(d) <= t < Midnight(d + 1)
  {
    t / DayMs
  }

  /** `getDay()`: 0 is Sunday, 1 is Monday, ... 6 is Saturday. Day 0 was a Thursday. */
  function Weekday(d: Day): (w: int)
    ensures 0 <= w < 7
  {
    (d + 4) % 7
  }

  /** Any instant of day d falls on day d. */
  lemma DayOfWithin(d: Day, k: int)
    requires 0 <= k < DayMs
    ensures DayOf(Midnight(d) + k) == d
  {
    var e := DayOf(Midnight(d) + k);
    assert Midnight(e) <= Midnight(d) + k < Midnight(e + 1);
  }

  /** Moving an instant by whole days moves its day by as many. */
  lemma DayOfShift(t: Instant, k: int)
    ensures DayOf(t + k * DayMs) == DayOf(t) + k
  {
    var d := DayOf(t);
    DayOfWithin(d + k, t - Midnight(d));
    assert Midnight(d + k) + (t - Midnight(d)) == t + k * DayMs;
  }

  /** Stepping back to the day after the last Sunday lands on a Monday. */
  lemma MondayOf(day: Day)
    ensures Weekday(day - Weekday(day) + 1) == 1
  {
    var q := (day + 4) / 7;
    assert day + 4 == 7 * q + Weekday(day);
    assert day - Weekday(day) + 1 + 4 == 7 * q + 1;
  }

  /** A week earlier is the same weekday. */
  lemma WeekBefore(d: Day)
    ensures Weekday(d - 7) == Weekday(d)
  {
    var q := (d + 4) / 7;
    assert d + 4 == 7 * q + Weekday(d);
    assert d - 7 + 4 == 7 * (q - 1) + Weekday(d);
  }

  /** Moving the date within a month moves the day number by the same amount. */
  lemma ShiftDate(y: int, m: int, d: int, k: int)
    requires 0 <= m < 12
    ensures MakeDay(y, m, d + k) == MakeDay(y, m, d) + k
  {
  }

  /** A reading of the local clock: what `getFullYear`, `getMonth`, `getDate`
      and the time of day report. */
  datatype Clock = Clock(year: int, month: int, date: int, msOfDay: int)

  predicate ValidClock(c: Clock)
  {
    && 0 <= c.month < 12
    && 1 <= c.date <= DaysInMonth(c.year, c.month)
    && 0 <= c.msOfDay < DayMs
  }

  /** The day number of the clock's date. */
  function Today(c: Clock): (d: Day)
    requires ValidClock(c)
    ensures MakeDay(c.year, c.month, 1) <= d < MakeDay(c.year, c.month + 1, 1)
  {
    MonthLength(c.year, c.month);
    DaysFromCivil(c.year, c.month, c.date)
  }

  /** The instant the clock shows. */
  function Now(c: Clock): (t: Instant)
    requires ValidClock(c)
    ensures DayOf(t) == Today(c)
  {
    Midnight(Today(c)) + c.msOfDay
  }

  /** The leap-year count grows by one exactly across a leap year. */
  lemma LeapYearsStep(y: int)
    ensures LeapYearsBefore(y + 1) == LeapYearsBefore(y) + (if IsLeapYear(y) then 1 else 0)
  {
    DivSteps(y);
  }

  /** Each of the three floor quotients in the leap-year count steps up by one exactly
      at a multiple of its divisor. */
  lemma DivSteps(x: int)
    ensures x / 4 - (x - 1) / 4 == (if x % 4 == 0 then 1 else 0)
    ensures x / 100 - (x - 1) / 100 == (if x % 100 == 0 then 1 else 0)
    ensures x / 400 - (x - 1) / 400 == (if x % 400 == 0 then 1 else 0)
  {
  }

  /** Consecutive New Year's Days are one year-length apart. */
  lemma YearStep(y: int)
    ensures DaysBeforeYear(y + 1) == DaysBeforeYear(y) + DaysInYear(y)
  {
    LeapYearsStep(y);
  }

  /** The twelve months add up to the year. */
  lemma MonthsFillYear(y: int)
    ensures DaysBeforeMonth(y, 12) == DaysInYear(y)
  {
    var f := DaysInMonth(y, 1);
    assert DaysBeforeMonth(y, 1) == 31;
    assert DaysBeforeMonth(y, 2) == 31 + f;
    assert DaysBeforeMonth(y, 3) == 62 + f;
    assert DaysBeforeMonth(y, 4) == 92 + f;
    assert DaysBeforeMonth(y, 5) == 123 + f;
    assert DaysBeforeMonth(y, 6) == 153 + f;
    assert DaysBeforeMonth(y, 7) == 184 + f;
    assert DaysBeforeMonth(y, 8) == 215 + f;
    assert DaysBeforeMonth(y, 9) == 245 + f;
    assert DaysBeforeMonth(y, 10) == 276 + f;
    assert DaysBeforeMonth(y, 11) == 306 + f;
  }

  /** The first of the following month (normalised by MakeDay, so December carries
      into January) lies exactly one month-length after the first of month m. */
  lemma MonthLength(y: int, m: int)
    requires 0 <= m < 12
    ensures MakeDay(y, m + 1, 1) == MakeDay(y, m, 1) + DaysInMonth(y, m)
  {
    if m == 11 {
      YearStep(y);
      MonthsFillYear(y);
      assert MakeDay(y, 12, 1) == DaysFromCivil(y + 1, 0, 1);
    }
  }

  /** Day number zero is 1970-01-01, and 2024-01-01 was a Monday. */
  lemma EpochAnchors()
    ensures DaysFromCivil(1970, 0, 1) == 0
    ensures Weekday(DaysFromCivil(2024, 0, 1)) == 1
  {
    assert LeapYearsBefore(1970) == 477;
    assert LeapYearsBefore(2024) == 490;
    assert DaysFromCivil(2024, 0, 1) == 19723;
  }
}
