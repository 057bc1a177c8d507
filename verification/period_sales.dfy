/** `usePeriodSales`: the sales between two chosen days and their quantity-weighted
    total, kept as a report that also remembers the normalised bounds. */
module PeriodSales {
  import opened Calendar
  import opened Seqs
  import opened Results
  import opened SaleRecords
  import opened Store
  import SalesByDate

  datatype PeriodReport = PeriodReport(
    totalSales: int,
    totalValue: real,
    sales: seq<Sale>,
    startDate: Option<Instant>,
    endDate: Option<Instant>)

  datatype PeriodState = PeriodState(report: PeriodReport, loading: bool)

  /** The report before any search: nothing counted, no bounds. */
  const InitialReport := PeriodReport(0, 0.0, [], None, None)

  const Initial := PeriodState(InitialReport, false)

  /** `hasSearched` in the report screen: a start bound has been stored. */
  predicate HasSearched(r: PeriodReport)
  {
    r.startDate.Some?
  }

  /** The bounds the query uses: midnight of the start day and the last millisecond of
      the end day. */
  function NormaliseBounds(startDate: Instant, endDate: Instant): (r: (Instant, Instant))
    ensures r.0 <= startDate && DayOf(r.0) == DayOf(startDate) && r.0 == Midnight(DayOf(startDate))
    ensures endDate <= r.1 && DayOf(r.1) == DayOf(endDate) && r.1 + 1 == Midnight(DayOf(endDate) + 1)
  {
    var (s, _) := SalesByDate.GetDateRange(startDate);
    var (_, e) := SalesByDate.GetDateRange(endDate);
    (s, e)
  }

  /** `setLoading(true)` as a load starts. */
  function BeginLoad(st: PeriodState): (r: PeriodState)
    ensures r.loading && r.report == st.report
  {
    st.(loading := true)
  }

  /** The end of `loadPeriodSales(startDate, endDate)`: on success the report holds the
      store's rows between the normalised bounds (both included), their number, the sum
      of `quantidade * valor` over them and the bounds themselves; on failure the report
      is unchanged. Loading ends either way. */
  function FinishLoad(st: PeriodState, startDate: Instant, endDate: Instant, store: Result<seq<Sale>>): (r: PeriodState)
    ensures !r.loading
    ensures store.Err? ==> r.report == st.report
    ensures store.Ok? ==>
              var (start, end) := NormaliseBounds(startDate, endDate);
              && (forall s :: s in r.report.sales <==> s in store.value && start <= s.soldAt <= end)
              && (forall s :: multiset(r.report.sales)[s] == if start <= s.soldAt <= end then multiset(store.value)[s] else 0)
              && SubsequenceOf(r.report.sales, store.value)
              && r.report.totalSales == |r.report.sales|
              && r.report.totalValue == Sum(r.report.sales, LineTotal)
              && r.report.startDate == Some(start) && r.report.endDate == Some(end)
  {
    match store
    case Err(_) => st.(loading := false)
    case Ok(table) =>
      var (start, end) := NormaliseBounds(startDate, endDate);
      var rows := Between(table, start, end);
      PeriodState(PeriodReport(|rows|, Sum(rows, LineTotal), rows, Some(start), Some(end)), false)
  }

  /** Nothing has been searched at first; a successful load always counts as a search,
      and a failed one leaves the answer as it was. */
  lemma SearchedOnlyAfterSuccess(st: PeriodState, startDate: Instant, endDate: Instant, store: Result<seq<Sale>>)
    ensures !HasSearched(Initial.report)
    ensures store.Ok? ==> HasSearched(FinishLoad(st, startDate, endDate, store).report)
    ensures store.Err? ==> (HasSearched(FinishLoad(st, startDate, endDate, store).report) <==> HasSearched(st.report))
  {
  }

  /** A period of one day covers the same instants as the daily report for that day. */
  lemma OneDayIsTheDailyRange(date: Instant)
    ensures NormaliseBounds(date, date) == SalesByDate.GetDateRange(date)
  {
  }

  /** An end day before the start day selects nothing: the report is empty. */
  lemma ReversedPeriodIsEmpty(st: PeriodState, startDate: Instant, endDate: Instant, table: seq<Sale>)
    requires DayOf(endDate) < DayOf(startDate)
    ensures var r := FinishLoad(st, startDate, endDate, Ok(table)).report;
            r.sales == [] && r.totalSales == 0 && r.totalValue == 0.0
  {
    var r := FinishLoad(st, startDate, endDate, Ok(table)).report;
    var (start, end) := NormaliseBounds(startDate, endDate);
    assert end < start by {
      assert end + 1 == Midnight(DayOf(endDate) + 1);
      assert DayOf(endDate) + 1 <= DayOf(startDate);
    }
    assert forall s :: s !in r.sales;
  }

  /** Widening the period at either end never lowers the count of sales it finds. */
  lemma {:induction false} WiderPeriodFindsMore(table: seq<Sale>, lo: Instant, hi: Instant, lo': Instant, hi': Instant)
    requires lo' <= lo && hi <= hi'
    ensures |Between(table, lo, hi)| <= |Between(table, lo', hi')|
    decreases |table|
  {
    if |table| > 0 {
      WiderPeriodFindsMore(table[..|table| - 1], lo, hi, lo', hi');
    }
  }
}
