/** What the dashboard screen derives from the loaded figures: the comparison badge,
    the width of the progress bars, and whether the ranking chart is drawn. */
module DashboardView {
  import opened Results
  import opened Comparison
  import opened SaleRecords
  import opened TopProducts

  /** `Math.min(100, Math.max(0, x))`. */
  function Clamp(x: real): (r: real)
    ensures 0.0 <= r <= 100.0
    ensures 0.0 <= x <= 100.0 ==> r == x
    ensures x > 100.0 ==> r == 100.0
    ensures x < 0.0 ==> r == 0.0
  {
    if x > 100.0 then 100.0 else if x < 0.0 then 0.0 else x
  }

  /** The bar width in percent: half the bar when the current amount equals the
      previous one, growing with the ratio up to a full bar; against a non-positive
      baseline a full bar for any current amount and none otherwise. */
  function ProgressWidth(current: real, previous: real): (w: real)
    ensures 0.0 <= w <= 100.0
    ensures previous > 0.0 && 0.0 <= current * 50.0 <= 100.0 * previous ==> w * previous == current * 50.0
    ensures previous > 0.0 && current * 50.0 >= 100.0 * previous ==> w == 100.0
    ensures previous > 0.0 && current <= 0.0 ==> w == 0.0
    ensures previous <= 0.0 ==> w == (if current > 0.0 then 100.0 else 0.0)
  {
    if previous > 0.0 then
      BarScale(current, previous);
      Clamp((current / previous) * 50.0)
    else
      Clamp(if current > 0.0 then 100.0 else 0.0)
  }

  lemma BarScale(current: real, previous: real)
    requires previous > 0.0
    ensures var raw := (current / previous) * 50.0;
            && raw * previous == current * 50.0
            && (current * 50.0 >= 100.0 * previous ==> raw >= 100.0)
            && (current * 50.0 <= 100.0 * previous ==> raw <= 100.0)
            && (current <= 0.0 ==> raw <= 0.0)
            && (current >= 0.0 ==> raw >= 0.0)
  {
    var raw := (current / previous) * 50.0;
    assert raw * previous == current * 50.0;
    if current * 50.0 >= 100.0 * previous {
      assert (raw - 100.0) * previous >= 0.0;
    }
    if current * 50.0 <= 100.0 * previous {
      assert (raw - 100.0) * previous <= 0.0;
    }
  }

  /** Equal amounts fill half the bar. */
  lemma EqualIsHalf(x: real)
    requires x > 0.0
    ensures ProgressWidth(x, x) == 50.0
  {
  }

  /** Against a positive baseline and for amounts that cannot be negative, the bar
      reaches the middle exactly when the comparison reads as positive. */
  lemma HalfBarIffPositive(current: real, previous: real)
    requires previous > 0.0 && current >= 0.0
    ensures ProgressWidth(current, previous) >= 50.0 <==> Compare(current, previous).isPositive
  {
    PositiveIffNotBelow(current, previous);
    var w := ProgressWidth(current, previous);
    if current * 50.0 <= 100.0 * previous {
      assert (w - 50.0) * previous == (current - previous) * 50.0;
      SignOfProduct(w - 50.0, previous);
      SignOfProduct(current - previous, 50.0);
    }
  }

  /** `ComparisonBadge`: "Sem dados" or an arrow, up and green with a '+' when
      positive, down and red without a sign otherwise. */
  datatype Badge = NoData | Arrow(up: bool, plusSign: bool)

  function BadgeFor(c: ComparisonData): (b: Badge)
    ensures b == NoData <==> c.previous == 0.0 && c.percentChange == 0.0
    ensures b.Arrow? ==> b.up == c.isPositive && b.plusSign == c.isPositive
  {
    if c.previous == 0.0 && c.percentChange == 0.0 then NoData else Arrow(c.isPositive, c.isPositive)
  }

  /** For a computed comparison, "Sem dados" appears exactly when there was nothing
      before and nothing now; with a positive baseline the arrow points up exactly when
      the current amount has not fallen below it. */
  lemma BadgeOfComparison(current: real, previous: real)
    ensures BadgeFor(Compare(current, previous)) == NoData <==> previous == 0.0 && current <= 0.0
    ensures previous > 0.0 ==> BadgeFor(Compare(current, previous)) == Arrow(current >= previous, current >= previous)
  {
    if previous > 0.0 {
      PositiveIffNotBelow(current, previous);
    }
  }

  /** The ranking chart is drawn when there is at least one product to show. */
  predicate ShowsChart(categoryData: seq<Category>)
  {
    |categoryData| > 0
  }

  /** The chart is drawn exactly when the month has a sale. */
  lemma ChartShownIffSales(monthSales: seq<Sale>)
    ensures ShowsChart(Top(monthSales)) <==> |monthSales| > 0
  {
    TopEmptyIff(monthSales);
  }
}
