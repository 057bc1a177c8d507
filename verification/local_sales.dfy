/** `useSales`: the browser-local sales list (add, update, delete) and its weekly
    report. The report reads each entry's `date` and `value` properties, which the
    `Sale` record does not declare: the forms hand over `nome_produto`, `quantidade`
    and `valor` only, so an entry they write has neither, and only entries that carry
    them from earlier saved data can ever be reported. */
module LocalSales {
  import opened Calendar
  import opened Results
  import opened Seqs
  import opened Text
  import opened Periods
  import opened SaleEntry

  /** What a caller supplies for a sale: everything but the id. `price` is `valor`;
      `value` and `date` are the properties the report reads, absent as `None`. */
  datatype Fields = Fields(productName: string, quantity: int, price: real, value: Option<real>, date: Option<Instant>)

  datatype Entry = Entry(id: string, fields: Fields)

  /** The payload the sale form and the list's edit pass to `addSale` and
      `updateSale`: name, quantity and price, with no `value` and no `date`. */
  function FromInput(input: SaleInput): (f: Fields)
    ensures f.productName == input.productName && f.quantity == input.quantity && f.price == input.value
    ensures f.value.None? && f.date.None?
  {
    Fields(input.productName, input.quantity, input.value, None, None)
  }

  /** The entry's `value` as a number, 0 where it is absent. */
  function EntryValue(e: Entry): real
  {
    match e.fields.value case Some(v) => v case None => 0.0
  }

  predicate HasValue(e: Entry)
  {
    e.fields.value.Some?
  }

  /** `reduce((sum, sale) => sum + sale.value, 0)`: a sum of the values, or `None`
      (JavaScript's `NaN`) once an entry without a `value` is added in. */
  function ValueSum(es: seq<Entry>): (r: Option<real>)
    ensures r.Some? <==> forall i :: 0 <= i < |es| ==> HasValue(es[i])
    ensures r.Some? ==> r.value == Sum(es, EntryValue)
  {
    if |es| == 0 then Some(0.0)
    else
      var init := ValueSum(es[..|es| - 1]);
      assert forall i :: 0 <= i < |es| - 1 ==> es[..|es| - 1][i] == es[i];
      if init.Some? && HasValue(es[|es| - 1]) then Some(init.value + EntryValue(es[|es| - 1])) else None
  }

  /** The ids in the list. */
  function Ids(entries: seq<Entry>): set<string>
  {
    set i | 0 <= i < |entries| :: entries[i].id
  }

  /** `addSale`: the new sale, with the decimal text of the clock reading as its id,
      goes in front of the list. */
  function AddSale(entries: seq<Entry>, fields: Fields, clockMs: int): (r: seq<Entry>)
    ensures |r| == |entries| + 1
    ensures r[0].fields == fields && r[0].id == IntToString(clockMs)
    ensures r[1..] == entries
  {
    [Entry(IntToString(clockMs), fields)] + entries
  }

  /** `updateSale`: every entry with the id gets the new fields and keeps the id; the
      others stay as they are, in place. */
  function UpdateSale(entries: seq<Entry>, id: string, fields: Fields): (r: seq<Entry>)
    ensures |r| == |entries|
    ensures forall i :: 0 <= i < |r| ==> r[i].id == entries[i].id
    ensures forall i :: 0 <= i < |r| && entries[i].id != id ==> r[i] == entries[i]
    ensures forall i :: 0 <= i < |r| && entries[i].id == id ==> r[i].fields == fields
  {
    seq(|entries|, i requires 0 <= i < |entries| =>
      if entries[i].id == id then Entry(id, fields) else entries[i])
  }

  predicate KeptBy(e: Entry, id: string)
  {
    e.id != id
  }

  /** `deleteSale`: the entries with any other id, in their order. */
  function DeleteSale(entries: seq<Entry>, id: string): (r: seq<Entry>)
    ensures |r| <= |entries|
    ensures forall e :: e in r <==> e in entries && e.id != id
    ensures forall e :: multiset(r)[e] == if e.id != id then multiset(entries)[e] else 0
    ensures SubsequenceOf(r, entries)
  {
    KeepCounts(entries, (e: Entry) => KeptBy(e, id));
    Keep(entries, (e: Entry) => KeptBy(e, id))
  }

  /** An update for an id that is not in the list changes nothing. */
  lemma UpdateAbsent(entries: seq<Entry>, id: string, fields: Fields)
    requires id !in Ids(entries)
    ensures UpdateSale(entries, id, fields) == entries
  {
    var r := UpdateSale(entries, id, fields);
    forall i | 0 <= i < |entries| ensures r[i] == entries[i] {
      assert entries[i].id in Ids(entries);
    }
  }

  /** Updating twice with the same fields is updating once. */
  lemma UpdateIdempotent(entries: seq<Entry>, id: string, fields: Fields)
    ensures UpdateSale(UpdateSale(entries, id, fields), id, fields) == UpdateSale(entries, id, fields)
  {
  }

  /** Deleting after an update is deleting: the update touches only the deleted entries. */
  lemma DeleteAfterUpdate(entries: seq<Entry>, id: string, fields: Fields)
    ensures DeleteSale(UpdateSale(entries, id, fields), id) == DeleteSale(entries, id)
  {
    KeepSame(UpdateSale(entries, id, fields), entries, id);
  }

  /** Two lists that agree on every entry with another id keep the same entries. */
  lemma {:induction false} KeepSame(xs: seq<Entry>, ys: seq<Entry>, id: string)
    requires |xs| == |ys|
    requires forall i :: 0 <= i < |xs| ==> xs[i].id == ys[i].id
    requires forall i :: 0 <= i < |xs| && xs[i].id != id ==> xs[i] == ys[i]
    ensures DeleteSale(xs, id) == DeleteSale(ys, id)
    decreases |xs|
  {
    if |xs| > 0 {
      KeepSame(xs[..|xs| - 1], ys[..|ys| - 1], id);
    }
  }

  /** Deleting twice is deleting once. */
  lemma DeleteIdempotent(entries: seq<Entry>, id: string)
    ensures DeleteSale(DeleteSale(entries, id), id) == DeleteSale(entries, id)
  {
    var p := (e: Entry) => KeptBy(e, id);
    KeepKeep(entries, p, p);
  }

  /** Deleting an id that is not in the list changes nothing. */
  lemma {:induction false} DeleteAbsent(entries: seq<Entry>, id: string)
    requires id !in Ids(entries)
    ensures DeleteSale(entries, id) == entries
    decreases |entries|
  {
    if |entries| > 0 {
      var init := entries[..|entries| - 1];
      assert entries[|entries| - 1].id in Ids(entries);
      forall j | 0 <= j < |init| ensures init[j].id != id {
        assert init[j] == entries[j];
        assert entries[j].id in Ids(entries);
      }
      DeleteAbsent(init, id);
      assert entries == init + [entries[|entries| - 1]];
    }
  }

  /** Deleting a sale just added under a fresh id gives back the list before it. */
  lemma DeleteAfterAdd(entries: seq<Entry>, fields: Fields, clockMs: int)
    requires IntToString(clockMs) !in Ids(entries)
    ensures DeleteSale(AddSale(entries, fields, clockMs), IntToString(clockMs)) == entries
  {
    var id := IntToString(clockMs);
    var p := (e: Entry) => KeptBy(e, id);
    KeepAppend([Entry(id, fields)], entries, p);
    assert AddSale(entries, fields, clockMs) == [Entry(id, fields)] + entries;
    assert Keep([Entry(id, fields)], p) == [] by {
      assert [Entry(id, fields)][..0] == [];
    }
    DeleteAbsent(entries, id);
  }

  /** The weekly report's window: from midnight of the day `getDate() - getDay() + 1`
      (the Monday of this week; the next day on a Sunday) to the last millisecond of
      the sixth day after it, both ends included. */
  function WeeklyWindow(now: Clock): (w: (Instant, Instant))
    requires ValidClock(now)
    ensures var monday := DayOf(w.0);
            && w.0 == Midnight(monday) && Weekday(monday) == 1
            && w.1 == LastInstant(monday + 6) && w.1 - w.0 == 7 * DayMs - 1
    ensures Weekday(Today(now)) != 0 ==> w.0 <= Now(now) <= w.1
    ensures Weekday(Today(now)) == 0 ==> w.0 == Midnight(Today(now) + 1)
  {
    var monday := WeekStartDay(now);
    DayOfWithin(monday, 0);
    (Midnight(monday), LastInstant(monday + 6))
  }

  /** `new Date(sale.date)` compared with both ends: an entry without a date gives an
      invalid date, and every comparison with it is false. */
  predicate InWindow(e: Entry, start: Instant, end: Instant)
  {
    e.fields.date.Some? && start <= e.fields.date.value <= end
  }

  /** `totalValue` is `None` where JavaScript computes `NaN`. */
  datatype WeeklyReport = WeeklyReport(totalSales: int, totalValue: Option<real>, sales: seq<Entry>)

  /** `getWeeklyReport`: the entries dated in the window, in list order and each as
      often as it occurs, how many there are, and the sum of their `value` fields
      (unit prices; quantities play no part), which is `NaN` if one of them has none. */
  function GetWeeklyReport(entries: seq<Entry>, now: Clock): (r: WeeklyReport)
    requires ValidClock(now)
    ensures var (start, end) := WeeklyWindow(now);
            && (forall e :: e in r.sales <==> e in entries && InWindow(e, start, end))
            && (forall e :: multiset(r.sales)[e] == if InWindow(e, start, end) then multiset(entries)[e] else 0)
            && SubsequenceOf(r.sales, entries)
            && r.totalSales == |r.sales| <= |entries|
            && (r.totalValue.Some? <==> forall e :: e in r.sales ==> HasValue(e))
            && (r.totalValue.Some? ==> r.totalValue.value == Sum(r.sales, EntryValue))
  {
    var (start, end) := WeeklyWindow(now);
    KeepCounts(entries, (e: Entry) => InWindow(e, start, end));
    var week := Keep(entries, (e: Entry) => InWindow(e, start, end));
    WeeklyReport(|week|, ValueSum(week), week)
  }

  /** On a Sunday the report covers the coming week only: nothing dated up to the
      current instant is in it. */
  lemma SundayReportIsAhead(entries: seq<Entry>, now: Clock)
    requires ValidClock(now) && Weekday(Today(now)) == 0
    ensures forall e :: e in GetWeeklyReport(entries, now).sales ==> e.fields.date.Some? && e.fields.date.value > Now(now)
  {
  }

  /** A sale added through the form carries no date, so it never reaches the weekly
      report: the report after adding it is the report before. */
  lemma AddedFromFormNotReported(entries: seq<Entry>, input: SaleInput, clockMs: int, now: Clock)
    requires ValidClock(now)
    ensures GetWeeklyReport(AddSale(entries, FromInput(input), clockMs), now) == GetWeeklyReport(entries, now)
  {
    var (start, end) := WeeklyWindow(now);
    var p := (e: Entry) => InWindow(e, start, end);
    var added := Entry(IntToString(clockMs), FromInput(input));
    assert Keep([added] + entries, p) == Keep(entries, p) by {
      KeepAppend([added], entries, p);
      assert Keep([added], p) == [] by {
        assert [added][..0] == [];
      }
    }
    assert AddSale(entries, FromInput(input), clockMs) == [added] + entries;
  }

  /** Editing a sale through the list replaces its fields with a payload that has no
      date, so no entry with that id is in the report afterwards. */
  lemma UpdatedFromFormNotReported(entries: seq<Entry>, id: string, input: SaleInput, now: Clock)
    requires ValidClock(now)
    ensures forall e :: e in GetWeeklyReport(UpdateSale(entries, id, FromInput(input)), now).sales ==> e.id != id
  {
    var updated := UpdateSale(entries, id, FromInput(input));
    forall e | e in GetWeeklyReport(updated, now).sales ensures e.id != id {
      var i :| 0 <= i < |updated| && updated[i] == e;
    }
  }

  /** A list written only through the forms always gives an empty report with total 0. */
  lemma UndatedListReportsNothing(entries: seq<Entry>, now: Clock)
    requires ValidClock(now)
    requires forall i :: 0 <= i < |entries| ==> entries[i].fields.date.None?
    ensures GetWeeklyReport(entries, now) == WeeklyReport(0, Some(0.0), [])
  {
  }

  /** The weekly total ignores quantities: changing an entry's quantity leaves it as is. */
  lemma QuantityIgnored(entries: seq<Entry>, now: Clock, i: int, q: int)
    requires ValidClock(now) && 0 <= i < |entries|
    ensures var changed := entries[i := entries[i].(fields := entries[i].fields.(quantity := q))];
            GetWeeklyReport(changed, now).totalValue == GetWeeklyReport(entries, now).totalValue
  {
    var (start, end) := WeeklyWindow(now);
    var changed := entries[i := entries[i].(fields := entries[i].fields.(quantity := q))];
    assert SameDatesAndValues(entries, changed);
    KeepValues(entries, changed, start, end);
    ValueSumAgree(Keep(entries, (e: Entry) => InWindow(e, start, end)), Keep(changed, (e: Entry) => InWindow(e, start, end)));
  }

  /** The two lists agree on every entry's date and value. */
  predicate SameDatesAndValues(xs: seq<Entry>, ys: seq<Entry>)
  {
    && |xs| == |ys|
    && (forall i :: 0 <= i < |xs| ==> xs[i].fields.date == ys[i].fields.date)
    && (forall i :: 0 <= i < |xs| ==> xs[i].fields.value == ys[i].fields.value)
  }

  /** The window sees only dates, so two lists that agree on dates and values keep
      entries that agree on dates and values. */
  lemma {:induction false} KeepValues(xs: seq<Entry>, ys: seq<Entry>, start: Instant, end: Instant)
    requires SameDatesAndValues(xs, ys)
    ensures SameDatesAndValues(Keep(xs, (e: Entry) => InWindow(e, start, end)), Keep(ys, (e: Entry) => InWindow(e, start, end)))
    decreases |xs|
  {
    if |xs| > 0 {
      var p := (e: Entry) => InWindow(e, start, end);
      var xi, yi := xs[..|xs| - 1], ys[..|ys| - 1];
      var x, y := xs[|xs| - 1], ys[|ys| - 1];
      assert SameDatesAndValues(xi, yi);
      KeepValues(xi, yi, start, end);
      KeepLast(xs, p);
      KeepLast(ys, p);
      assert p(x) == p(y);
      SameAppend(Keep(xi, p), Keep(yi, p), if p(x) then [x] else [], if p(y) then [y] else []);
    }
  }

  lemma SameAppend(a: seq<Entry>, b: seq<Entry>, c: seq<Entry>, d: seq<Entry>)
    requires SameDatesAndValues(a, b) && SameDatesAndValues(c, d)
    ensures SameDatesAndValues(a + c, b + d)
  {
  }

  /** The sum depends on the values alone. */
  lemma {:induction false} ValueSumAgree(xs: seq<Entry>, ys: seq<Entry>)
    requires SameDatesAndValues(xs, ys)
    ensures ValueSum(xs) == ValueSum(ys)
    decreases |xs|
  {
    if |xs| > 0 {
      assert SameDatesAndValues(xs[..|xs| - 1], ys[..|ys| - 1]);
      ValueSumAgree(xs[..|xs| - 1], ys[..|ys| - 1]);
    }
  }
}
