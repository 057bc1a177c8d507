/** The dashboard's range total (`calculateTotal`): the sum of `quantidade * valor`
    over the sales in a half-open range [start, end). */
module RangeTotals {
  import opened Calendar
  import opened Seqs
  import opened SaleRecords

  predicate InHalfOpen(s: Sale, start: Instant, end: Instant)
  {
    start <= s.soldAt < end
  }

  /** The sales of `sales` in [start, end), in their original order. */
  function InRange(sales: seq<Sale>, start: Instant, end: Instant): (r: seq<Sale>)
    ensures forall s :: s in r <==> s in sales && InHalfOpen(s, start, end)
    ensures forall s :: multiset(r)[s] == if InHalfOpen(s, start, end) then multiset(sales)[s] else 0
    ensures SubsequenceOf(r, sales)
  {
    KeepCounts(sales, (s: Sale) => InHalfOpen(s, start, end));
    Keep(sales, (s: Sale) => InHalfOpen(s, start, end))
  }

  function Total(sales: seq<Sale>, start: Instant, end: Instant): (r: real)
    ensures (forall i :: 0 <= i < |sales| ==> !InHalfOpen(sales[i], start, end)) ==> r == 0.0
  {
    var matching := InRange(sales, start, end);
    assert |matching| > 0 ==> matching[0] in sales;
    Sum(matching, LineTotal)
  }

  /** The total of a concatenation is the sum of the totals. */
  lemma TotalAppend(xs: seq<Sale>, ys: seq<Sale>, start: Instant, end: Instant)
    ensures Total(xs + ys, start, end) == Total(xs, start, end) + Total(ys, start, end)
  {
    KeepAppend(xs, ys, (s: Sale) => InHalfOpen(s, start, end));
    SumAppend(InRange(xs, start, end), InRange(ys, start, end), LineTotal);
  }

  /** Splitting a range at an inner instant splits its total: an instant on the
      boundary is counted on exactly one side. */
  lemma {:induction false} TotalSplit(sales: seq<Sale>, a: Instant, b: Instant, c: Instant)
    requires a <= b <= c
    ensures Total(sales, a, c) == Total(sales, a, b) + Total(sales, b, c)
    decreases |sales|
  {
    if |sales| > 0 {
      var init := sales[..|sales| - 1];
      var last := sales[|sales| - 1];
      assert sales == init + [last];
      TotalSplit(init, a, b, c);
      TotalAppend(init, [last], a, c);
      TotalAppend(init, [last], a, b);
      TotalAppend(init, [last], b, c);
      TotalOfOne(last, a, c);
      TotalOfOne(last, a, b);
      TotalOfOne(last, b, c);
    }
  }

  lemma TotalOfOne(s: Sale, start: Instant, end: Instant)
    ensures Total([s], start, end) == (if InHalfOpen(s, start, end) then LineTotal(s) else 0.0)
  {
    assert [s][..0] == [];
    assert InRange([s], start, end) == (if InHalfOpen(s, start, end) then [s] else []);
    assert Sum([s], LineTotal) == LineTotal(s);
  }

  /** One more sale adds one to the count of sales in range exactly when it is in range. */
  lemma CountAppendOne(init: seq<Sale>, s: Sale, start: Instant, end: Instant)
    ensures |InRange(init + [s], start, end)| == |InRange(init, start, end)| + (if InHalfOpen(s, start, end) then 1 else 0)
  {
    KeepLast(init + [s], (x: Sale) => InHalfOpen(x, start, end));
    assert (init + [s])[..|init|] == init;
  }

  /** Sales entered through the forms never make a total negative. */
  lemma {:induction false} TotalNonNegative(sales: seq<Sale>, start: Instant, end: Instant)
    requires forall i :: 0 <= i < |sales| ==> WellFormed(sales[i])
    ensures Total(sales, start, end) >= 0.0
  {
    var m := InRange(sales, start, end);
    forall i | 0 <= i < |m| ensures LineTotal(m[i]) >= 0.0 {
      assert m[i] in sales;
    }
    SumNonNegative(m, LineTotal);
  }
}
