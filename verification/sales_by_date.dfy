/** `useSalesByDate`: the sales of one chosen calendar day and their total. The total
    adds up `valor` alone, one unit price per sale, whatever the quantity. */
module SalesByDate {
  import opened Calendar
  import opened Seqs
  import opened Results
  import opened SaleRecords
  import opened Store

  /** `getDateRange`: the first and the last millisecond of the day `date` falls on. */
  function GetDateRange(date: Instant): (r: (Instant, Instant))
    ensures DayOf(r.0) == DayOf(r.1) == DayOf(date)
    ensures r.0 <= date <= r.1 && r.0 < r.1
    ensures r.0 == Midnight(DayOf(date)) && r.1 + 1 == Midnight(DayOf(date) + 1)
  {
    var d := DayOf(date);
    DayOfWithin(d, 0);
    DayOfWithin(d, DayMs - 1);
    (Midnight(d), LastInstant(d))
  }

  datatype ByDateState = ByDateState(selectedDate: Instant, selectedDateSales: seq<Sale>, loading: bool)

  /** The hook's first state: the current instant selected, no sales, not loading. */
  function Initial(now: Instant): (st: ByDateState)
    ensures st.selectedDate == now && |st.selectedDateSales| == 0 && !st.loading
  {
    ByDateState(now, [], false)
  }

  /** `setLoading(true)` as a load starts. */
  function BeginLoad(st: ByDateState): (r: ByDateState)
    ensures r.loading
    ensures r.selectedDate == st.selectedDate && r.selectedDateSales == st.selectedDateSales
  {
    st.(loading := true)
  }

  /** The end of `loadSalesByDate(date)`: on success the store's rows of that day (both
      ends of the day included) become the list and `date` the selection; on failure
      both stay as they were. Loading ends either way. */
  function FinishLoad(st: ByDateState, date: Instant, store: Result<seq<Sale>>): (r: ByDateState)
    ensures !r.loading
    ensures store.Err? ==> r.selectedDate == st.selectedDate && r.selectedDateSales == st.selectedDateSales
    ensures store.Ok? ==> r.selectedDate == date
    ensures store.Ok? ==> var (start, end) := GetDateRange(date);
            && (forall s :: s in r.selectedDateSales <==> s in store.value && start <= s.soldAt <= end)
            && (forall s :: multiset(r.selectedDateSales)[s] == if start <= s.soldAt <= end then multiset(store.value)[s] else 0)
            && SubsequenceOf(r.selectedDateSales, store.value)
  {
    match store
    case Err(_) => st.(loading := false)
    case Ok(table) =>
      var (start, end) := GetDateRange(date);
      ByDateState(date, Between(table, start, end), false)
  }

  /** A successful load lists the store's sales whose day is the chosen day, each as
      often as the store returned it, in the store's order. */
  lemma LoadedSameDay(st: ByDateState, date: Instant, table: seq<Sale>)
    ensures var listed := FinishLoad(st, date, Ok(table)).selectedDateSales;
            && (forall s :: s in listed <==> s in table && DayOf(s.soldAt) == DayOf(date))
            && (forall s :: multiset(listed)[s] == if DayOf(s.soldAt) == DayOf(date) then multiset(table)[s] else 0)
            && SubsequenceOf(listed, table)
  {
    var (start, end) := GetDateRange(date);
    forall s: Sale ensures (start <= s.soldAt <= end) <==> DayOf(s.soldAt) == DayOf(date) {
      if start <= s.soldAt <= end {
        DayOfWithin(DayOf(date), s.soldAt - start);
      }
    }
  }

  /** `getSelectedDateReport().totalValue`: the sum of the listed unit prices. */
  function SelectedDateReport(st: ByDateState): (total: real)
    ensures |st.selectedDateSales| == 0 ==> total == 0.0
  {
    Sum(st.selectedDateSales, UnitValue)
  }

  /** The day's total adds each listed sale's unit price once: one more sale adds its
      price, whatever its quantity. */
  lemma ReportAddsUnitPrice(st: ByDateState, s: Sale)
    ensures SelectedDateReport(st.(selectedDateSales := st.selectedDateSales + [s]))
         == SelectedDateReport(st) + s.value
  {
    assert (st.selectedDateSales + [s])[..|st.selectedDateSales|] == st.selectedDateSales;
  }

  /** For sales the entry forms let through, the day's total is at most the
      quantity-weighted total the dashboard would count for the same sales, and equal
      to it when every quantity is one. */
  lemma {:induction false} UnitTotalAtMostLineTotal(sales: seq<Sale>)
    requires forall i :: 0 <= i < |sales| ==> WellFormed(sales[i])
    ensures Sum(sales, UnitValue) <= Sum(sales, LineTotal)
    ensures (forall i :: 0 <= i < |sales| ==> sales[i].quantity == 1) ==> Sum(sales, UnitValue) == Sum(sales, LineTotal)
    decreases |sales|
  {
    if |sales| > 0 {
      var init := sales[..|sales| - 1];
      var last := sales[|sales| - 1];
      assert forall i :: 0 <= i < |init| ==> init[i] == sales[i];
      UnitTotalAtMostLineTotal(init);
      assert (last.quantity as real) * last.value >= last.value by {
        assert (last.quantity as real) - 1.0 >= 0.0;
        assert ((last.quantity as real) - 1.0) * last.value >= 0.0;
      }
    }
  }
}
