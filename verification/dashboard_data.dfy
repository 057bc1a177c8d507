/** `useDashboardData`: one load of the dashboard. The clock reading and the outcome
    of the `vendas` query are inputs; everything else is computed from them. */
module DashboardData {
  import opened Calendar
  import opened Seqs
  import opened Results
  import opened SaleRecords
  import opened Store
  import opened Comparison
  import opened RangeTotals
  import opened Periods
  import opened DailyBuckets
  import opened TopProducts

  datatype DashboardState = DashboardState(
    dailySales: seq<DayBucket>,
    categoryData: seq<Category>,
    totalMonth: real,
    totalWeek: real,
    totalToday: real,
    salesCount: int,
    avgTicket: real,
    loading: bool,
    todayComparison: ComparisonData,
    weekComparison: ComparisonData,
    monthComparison: ComparisonData)

  /** The state before the first load: nothing counted, still loading. */
  const Initial := DashboardState([], [], 0.0, 0.0, 0.0, 0, 0.0, true, Neutral, Neutral, Neutral)

  /** The average ticket: the month total spread over the month's sales, 0 without any. */
  function AvgTicket(total: real, count: int): (r: real)
    ensures count > 0 ==> r * (count as real) == total
    ensures count <= 0 ==> r == 0.0
  {
    if count > 0 then total / (count as real) else 0.0
  }

  /** The query: every sale from the start of last month on. */
  function Fetch(table: seq<Sale>, now: Clock): (r: seq<Sale>)
    requires ValidClock(now)
    ensures forall s :: s in r <==> s in table && BoundariesAt(now).startOfLastMonth <= s.soldAt
    ensures forall s :: multiset(r)[s] == if BoundariesAt(now).startOfLastMonth <= s.soldAt then multiset(table)[s] else 0
    ensures SubsequenceOf(r, table)
  {
    Since(table, BoundariesAt(now).startOfLastMonth)
  }

  /** A current period measured against the previous one (`calculateComparison` of
      two `calculateTotal`s). */
  function Period(sales: seq<Sale>, start: Instant, end: Instant, prevStart: Instant, prevEnd: Instant): (r: ComparisonData)
    ensures r.current == Total(sales, start, end)
    ensures r.previous == Total(sales, prevStart, prevEnd)
    ensures r == Compare(r.current, r.previous)
  {
    Compare(Total(sales, start, end), Total(sales, prevStart, prevEnd))
  }

  /** The dashboard figures for fetched `sales`, given the boundaries of `now`: the
      chart of the seven days ending today, the ranking and the count of the sales at
      or after the start of the month (`currentMonthSales`, which also takes any dated
      after today), and the average ticket of the month total over that count. */
  function Figures(b: Boundaries, now: Instant, utcOffset: int, sales: seq<Sale>): (r: DashboardState)
    ensures !r.loading
    ensures r.todayComparison.current == r.totalToday
    ensures r.weekComparison.current == r.totalWeek
    ensures r.monthComparison.current == r.totalMonth
    ensures r.todayComparison == Compare(r.totalToday, r.todayComparison.previous)
    ensures r.weekComparison == Compare(r.totalWeek, r.weekComparison.previous)
    ensures r.monthComparison == Compare(r.totalMonth, r.monthComparison.previous)
    ensures r.dailySales == DailySales(now, utcOffset, sales)
    ensures r.categoryData == Top(Since(sales, b.startOfMonth))
    ensures r.salesCount == |Since(sales, b.startOfMonth)| <= |sales|
    ensures r.avgTicket == AvgTicket(r.totalMonth, r.salesCount)
  {
    var today := Period(sales, b.today, b.tomorrow, b.yesterday, b.today);
    var week := Period(sales, b.startOfWeek, b.tomorrow, b.startOfLastWeek, b.endOfLastWeek);
    var month := Period(sales, b.startOfMonth, b.tomorrow, b.startOfLastMonth, b.endOfLastMonth);
    var monthSales := Since(sales, b.startOfMonth);
    var count := |monthSales|;
    var avg := AvgTicket(month.current, count);
    DashboardState(
      DailySales(now, utcOffset, sales),
      Top(monthSales),
      month.current, week.current, today.current,
      count, avg, false,
      today, week, month)
  }

  /** `loadDashboardData`: on success every figure is replaced; on failure the figures
      stay as they were. Loading ends either way. */
  function Load(prev: DashboardState, now: Clock, utcOffset: int, fetch: Result<seq<Sale>>): (r: DashboardState)
    requires ValidClock(now)
    ensures !r.loading
    ensures fetch.Err? ==> r == prev.(loading := false)
    ensures fetch.Ok? ==> r == Figures(BoundariesAt(now), Now(now), utcOffset, fetch.value)
  {
    match fetch
    case Err(_) => prev.(loading := false)
    case Ok(sales) => Figures(BoundariesAt(now), Now(now), utcOffset, sales)
  }

  /** An empty range totals nothing. */
  lemma EmptyRange(sales: seq<Sale>, t: Instant)
    ensures Total(sales, t, t) == 0.0
  {
  }

  /** A range that starts at or after the query's bound totals the same over the
      fetched rows as over the whole table. */
  lemma FetchCovers(table: seq<Sale>, lo: Instant, start: Instant, end: Instant)
    requires lo <= start
    ensures Total(Since(table, lo), start, end) == Total(table, start, end)
  {
    KeepKeep(table, (s: Sale) => lo <= s.soldAt, (s: Sale) => InHalfOpen(s, start, end));
  }

  /** The query's bound, the first of last month, is at or before the start of every
      range the dashboard reads: yesterday, today, last week, this week, this month and
      the first of the chart's seven days, which is the `sevenDaysAgo` boundary. */
  lemma QueryBoundFirst(now: Clock)
    requires ValidClock(now)
    ensures var b := BoundariesAt(now);
            var lo := b.startOfLastMonth;
            && lo <= b.yesterday <= b.today
            && lo <= b.startOfLastWeek <= b.startOfWeek
            && lo <= b.startOfMonth
            && lo <= b.sevenDaysAgo == Midnight(DayOf(Now(now)) - 6)
  {
    var b := BoundariesAt(now);
    var (py, pm) := PreviousMonth(now.year, now.month);
    assert DaysInMonth(py, pm) >= 28;
    assert b.startOfMonth - b.startOfLastMonth >= 28 * DayMs;
    assert b.today >= b.startOfMonth;
    if Weekday(Today(now)) != 0 {
      assert b.startOfWeek > b.today - 7 * DayMs;
    }
    assert DayOf(Now(now)) == Today(now);
  }

  /** The chart adds only sales from its first day on, so dropping earlier rows leaves
      it unchanged. */
  lemma {:induction false} ChartIgnoresEarlier(bs: seq<DayBucket>, sales: seq<Sale>, lo: Instant, since: Instant, utcOffset: int)
    requires lo <= since
    ensures Fill(bs, Since(sales, lo), since, utcOffset) == Fill(bs, sales, since, utcOffset)
    decreases |sales|
  {
    if |sales| > 0 {
      var init, last := sales[..|sales| - 1], sales[|sales| - 1];
      var p := (s: Sale) => lo <= s.soldAt;
      ChartIgnoresEarlier(bs, init, lo, since, utcOffset);
      KeepLast(sales, p);
      if p(last) {
        assert (Keep(init, p) + [last])[..|Keep(init, p)|] == Keep(init, p);
      }
    }
  }

  /** The query fetches enough: loading the fetched rows shows exactly what loading
      the whole table would. */
  lemma FetchSuffices(prev: DashboardState, now: Clock, utcOffset: int, table: seq<Sale>)
    requires ValidClock(now)
    ensures Load(prev, now, utcOffset, Ok(Fetch(table, now))) == Load(prev, now, utcOffset, Ok(table))
  {
    var b := BoundariesAt(now);
    var lo := b.startOfLastMonth;
    var fetched := Fetch(table, now);
    assert fetched == Since(table, lo);
    QueryBoundFirst(now);
    FetchCovers(table, lo, b.today, b.tomorrow);
    FetchCovers(table, lo, b.yesterday, b.today);
    FetchCovers(table, lo, b.startOfWeek, b.tomorrow);
    FetchCovers(table, lo, b.startOfLastWeek, b.endOfLastWeek);
    FetchCovers(table, lo, b.startOfMonth, b.tomorrow);
    FetchCovers(table, lo, b.startOfLastMonth, b.endOfLastMonth);
    KeepKeep(table, (s: Sale) => lo <= s.soldAt, (s: Sale) => b.startOfMonth <= s.soldAt);
    assert Since(fetched, b.startOfMonth) == Since(table, b.startOfMonth);
    var t := Now(now);
    ChartIgnoresEarlier(EmptyBuckets(t, utcOffset), table, lo, Midnight(DayOf(t) - 6), utcOffset);
    assert DailySales(t, utcOffset, fetched) == DailySales(t, utcOffset, table);
  }

  /** Which range each figure of a load totals. */
  lemma FiguresTotals(b: Boundaries, now: Instant, utcOffset: int, sales: seq<Sale>)
    ensures var r := Figures(b, now, utcOffset, sales);
            && r.totalToday == Total(sales, b.today, b.tomorrow)
            && r.todayComparison.previous == Total(sales, b.yesterday, b.today)
            && r.totalWeek == Total(sales, b.startOfWeek, b.tomorrow)
            && r.weekComparison.previous == Total(sales, b.startOfLastWeek, b.endOfLastWeek)
            && r.totalMonth == Total(sales, b.startOfMonth, b.tomorrow)
            && r.monthComparison.previous == Total(sales, b.startOfLastMonth, b.endOfLastMonth)
  {
  }

  /** Two adjacent half-open ranges of a load count their union exactly once. */
  lemma AdjacentFigures(current: ComparisonData, sales: seq<Sale>, a: Instant, b: Instant, c: Instant)
    requires a <= b <= c
    requires current.previous == Total(sales, a, b) && current.current == Total(sales, b, c)
    ensures current.previous + current.current == Total(sales, a, c)
  {
    TotalSplit(sales, a, b, c);
  }

  /** Today and yesterday are adjacent: together they count exactly the last two days. */
  lemma TodayAfterYesterday(prev: DashboardState, now: Clock, utcOffset: int, sales: seq<Sale>)
    requires ValidClock(now)
    ensures var r := Load(prev, now, utcOffset, Ok(sales));
            var d := Today(now);
            r.todayComparison.previous + r.totalToday == Total(sales, Midnight(d - 1), Midnight(d + 1))
  {
    var b := BoundariesAt(now);
    var r := Figures(b, Now(now), utcOffset, sales);
    DayBoundaries(now);
    FiguresTotals(b, Now(now), utcOffset, sales);
    AdjacentFigures(r.todayComparison, sales, b.yesterday, b.today, b.tomorrow);
  }

  /** Yesterday, today and tomorrow are the midnights of consecutive days. */
  lemma DayBoundaries(now: Clock)
    requires ValidClock(now)
    ensures var b := BoundariesAt(now);
            var d := Today(now);
            && b.yesterday == Midnight(d - 1) && b.tomorrow == Midnight(d + 1)
            && b.yesterday <= b.today <= b.tomorrow
  {
  }

  /** On a Sunday the week starts tomorrow and last week is the seven days up to today. */
  lemma SundayBoundaries(now: Clock)
    requires ValidClock(now) && Weekday(Today(now)) == 0
    ensures var b := BoundariesAt(now);
            var d := Today(now);
            && b.startOfWeek == b.endOfLastWeek == b.tomorrow == Midnight(d + 1)
            && b.startOfLastWeek == Midnight(d - 6)
  {
  }

  /** On a Sunday the "Monday" is tomorrow: this week totals nothing, it compares as
      never better than last week, and "last week" is the Monday-to-Sunday span that
      ends today. */
  lemma SundayWeek(prev: DashboardState, now: Clock, utcOffset: int, sales: seq<Sale>)
    requires ValidClock(now) && Weekday(Today(now)) == 0
    ensures var r := Load(prev, now, utcOffset, Ok(sales));
            var d := Today(now);
            && r.totalWeek == 0.0
            && r.weekComparison.percentChange <= 0.0
            && r.weekComparison.previous == Total(sales, Midnight(d - 6), Midnight(d + 1))
  {
    SundayBoundaries(now);
    SundayFigures(BoundariesAt(now), Now(now), utcOffset, sales, Today(now));
  }

  lemma SundayFigures(b: Boundaries, now: Instant, utcOffset: int, sales: seq<Sale>, d: Day)
    requires b.startOfWeek == b.endOfLastWeek == b.tomorrow == Midnight(d + 1)
    requires b.startOfLastWeek == Midnight(d - 6)
    ensures var r := Figures(b, now, utcOffset, sales);
            && r.totalWeek == 0.0
            && r.weekComparison.percentChange <= 0.0
            && r.weekComparison.previous == Total(sales, Midnight(d - 6), Midnight(d + 1))
  {
    var r := Figures(b, now, utcOffset, sales);
    FiguresTotals(b, now, utcOffset, sales);
    EmptyRange(sales, b.tomorrow);
    NothingNowIsNoGain(r.weekComparison.previous);
  }

  /** On any other day last week runs from the Monday a week before this one up to
      this week's Monday, which is at most today. */
  lemma WeekdayBoundaries(now: Clock)
    requires ValidClock(now) && Weekday(Today(now)) != 0
    ensures var b := BoundariesAt(now);
            && b.startOfLastWeek <= b.startOfWeek == b.endOfLastWeek <= b.tomorrow
            && Weekday(DayOf(b.startOfLastWeek)) == 1
  {
    var b := BoundariesAt(now);
    var monday := DayOf(b.startOfWeek);
    assert b.startOfLastWeek == Midnight(monday - 7);
    DayOfWithin(monday - 7, 0);
    assert Midnight(monday - 7) + 0 == b.startOfLastWeek;
    WeekBefore(monday);
  }

  /** On any other day last week and this week are adjacent: together they count
      from last week's Monday up to tomorrow. */
  lemma WeekAfterLastWeek(prev: DashboardState, now: Clock, utcOffset: int, sales: seq<Sale>)
    requires ValidClock(now) && Weekday(Today(now)) != 0
    ensures var r := Load(prev, now, utcOffset, Ok(sales));
            var b := BoundariesAt(now);
            && Weekday(DayOf(b.startOfLastWeek)) == 1
            && r.weekComparison.previous + r.totalWeek == Total(sales, b.startOfLastWeek, b.tomorrow)
  {
    var b := BoundariesAt(now);
    var r := Figures(b, Now(now), utcOffset, sales);
    WeekdayBoundaries(now);
    FiguresTotals(b, Now(now), utcOffset, sales);
    AdjacentFigures(r.weekComparison, sales, b.startOfLastWeek, b.startOfWeek, b.tomorrow);
  }

  /** Last month ends where this month starts: together they count from the first of
      last month (December of the year before, in January) up to tomorrow. */
  lemma MonthAfterLastMonth(prev: DashboardState, now: Clock, utcOffset: int, sales: seq<Sale>)
    requires ValidClock(now)
    ensures var r := Load(prev, now, utcOffset, Ok(sales));
            var (py, pm) := PreviousMonth(now.year, now.month);
            var lastStart := Midnight(DaysFromCivil(py, pm, 1));
            r.monthComparison.previous + r.totalMonth == Total(sales, lastStart, Midnight(Today(now) + 1))
  {
    var b := BoundariesAt(now);
    var r := Figures(b, Now(now), utcOffset, sales);
    MonthBoundaries(now);
    FiguresTotals(b, Now(now), utcOffset, sales);
    AdjacentFigures(r.monthComparison, sales, b.startOfLastMonth, b.startOfMonth, b.tomorrow);
  }

  /** Last month starts on the first of the month before and ends where this month
      starts, which is at most today. */
  lemma MonthBoundaries(now: Clock)
    requires ValidClock(now)
    ensures var b := BoundariesAt(now);
            var (py, pm) := PreviousMonth(now.year, now.month);
            && b.startOfLastMonth == Midnight(DaysFromCivil(py, pm, 1))
            && b.startOfLastMonth <= b.startOfMonth == b.endOfLastMonth <= b.tomorrow
            && b.tomorrow == Midnight(Today(now) + 1)
  {
  }

  /** A failed load changes nothing but the loading flag. */
  lemma FailedLoadKeepsFigures(prev: DashboardState, now: Clock, utcOffset: int, message: string)
    requires ValidClock(now)
    ensures var r := Load(prev, now, utcOffset, Err(message));
            && r.totalToday == prev.totalToday && r.totalWeek == prev.totalWeek
            && r.totalMonth == prev.totalMonth && r.categoryData == prev.categoryData
            && r.dailySales == prev.dailySales && !r.loading
  {
  }
}
