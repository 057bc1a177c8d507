/** Period-over-period comparison (`calculateComparison`). */
module Comparison {

  datatype ComparisonData = ComparisonData(
    current: real,
    previous: real,
    percentChange: real,
    isPositive: bool)

  /** The comparison the dashboard starts with before any data is loaded. */
  const Neutral := ComparisonData(0.0, 0.0, 0.0, true)

  /** Percent change against a positive baseline; a non-positive baseline reads as a
      full increase when there is any current amount and as no change otherwise. */
  function Compare(current: real, previous: real): (r: ComparisonData)
    ensures r.current == current && r.previous == previous
    ensures previous > 0.0 ==> r.percentChange * previous == (current - previous) * 100.0
    ensures previous <= 0.0 && current > 0.0 ==> r.percentChange == 100.0
    ensures previous <= 0.0 && current <= 0.0 ==> r.percentChange == 0.0
    ensures r.isPositive <==> r.percentChange >= 0.0
  {
    var percentChange :=
      if previous > 0.0 then ((current - previous) / previous) * 100.0
      else if current > 0.0 then 100.0 else 0.0;
    ComparisonData(current, previous, percentChange, percentChange >= 0.0)
  }

  /** Against a positive baseline the comparison is positive exactly when the
      current amount has not fallen below it. */
  lemma PositiveIffNotBelow(current: real, previous: real)
    requires previous > 0.0
    ensures Compare(current, previous).isPositive <==> current >= previous
  {
    var r := Compare(current, previous);
    SignOfProduct(r.percentChange, previous);
    SignOfProduct(current - previous, 100.0);
  }

  /** Scaling by a positive factor keeps the sign. */
  lemma SignOfProduct(a: real, b: real)
    requires b > 0.0
    ensures a * b >= 0.0 <==> a >= 0.0
  {
    if a < 0.0 {
      NegTimesPos(a, b);
    }
  }

  lemma NegTimesPos(a: real, b: real)
    requires a < 0.0 && b > 0.0
    ensures a * b < 0.0
  {
    assert a * b == -((-a) * b);
  }

  /** A non-negative current amount can fall at most 100% below a positive baseline. */
  lemma DropIsAtMostFull(current: real, previous: real)
    requires previous > 0.0 && current >= 0.0
    ensures Compare(current, previous).percentChange >= -100.0
  {
    var r := Compare(current, previous);
    assert (r.percentChange + 100.0) * previous == current * 100.0;
  }

  /** A zero baseline never reads as a fall; in particular comparing nothing with
      nothing gives the neutral comparison. */
  lemma ZeroBaselineIsPositive(current: real)
    ensures Compare(current, 0.0).isPositive
    ensures Compare(current, 0.0).percentChange == (if current > 0.0 then 100.0 else 0.0)
    ensures Compare(0.0, 0.0) == Neutral
  {
  }

  /** Against a fixed positive baseline the percent change grows with the current amount. */
  lemma PercentMonotonic(c1: real, c2: real, previous: real)
    requires previous > 0.0 && c1 < c2
    ensures Compare(c1, previous).percentChange < Compare(c2, previous).percentChange
  {
    var r1 := Compare(c1, previous);
    var r2 := Compare(c2, previous);
    assert (r2.percentChange - r1.percentChange) * previous == (c2 - c1) * 100.0;
  }

  /** With nothing in the current period the change is a full fall against a positive
      baseline and no change otherwise; never a gain. */
  lemma NothingNowIsNoGain(previous: real)
    ensures previous > 0.0 ==> Compare(0.0, previous).percentChange == -100.0
    ensures Compare(0.0, previous).percentChange <= 0.0
  {
    var r := Compare(0.0, previous);
    if previous > 0.0 {
      assert (r.percentChange + 100.0) * previous == 0.0;
    }
  }
}
