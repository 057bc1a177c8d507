/** The 7-day sales chart: seven zero-filled buckets keyed by ISO date, filled by one
    pass over the fetched sales. */
module DailyBuckets {
  import opened Calendar
  import opened Seqs
  import opened Results
  import opened SaleRecords
  import opened RangeTotals

  datatype DayBucket = DayBucket(date: Day, day: string, total: real, count: int)

  function BucketTotal(b: DayBucket): real { b.total }
  function BucketCount(b: DayBucket): int { b.count }

  /** Weekday labels indexed by `getDay()`. The Saturday label is kept as the
      repository's file spells it, a doubly encoded "Sáb". */
  const DayNames: seq<string> := ["Dom", "Seg", "Ter", "Qua", "Qui", "Sex", "S\U{00C3}\U{00A1}b"]

  /** The date part of `toISOString()`, as a day number: the UTC date of a local
      instant, where `utcOffset` is local time minus UTC in milliseconds. */
  function IsoDay(t: Instant, utcOffset: int): Day
  {
    DayOf(t - utcOffset)
  }

  /** The zero bucket for the clock moved back `back` days: keyed by that instant's
      ISO date and labelled by its local weekday. */
  function EmptyBucket(now: Instant, utcOffset: int, back: int): (b: DayBucket)
    ensures b.date == IsoDay(now, utcOffset) - back
    ensures b.day == DayNames[Weekday(DayOf(now) - back)]
    ensures b.total == 0.0 && b.count == 0
  {
    var at := now - back * DayMs;
    DayOfShift(now - utcOffset, -back);
    DayOfShift(now, -back);
    assert at - utcOffset == (now - utcOffset) + (-back) * DayMs;
    DayBucket(IsoDay(at, utcOffset), DayNames[Weekday(DayOf(at))], 0.0, 0)
  }

  /** The seven zero buckets, oldest first: bucket k stands for the clock moved back
      6 - k days. */
  function EmptyBuckets(now: Instant, utcOffset: int): (bs: seq<DayBucket>)
    ensures |bs| == 7
    ensures forall k :: 0 <= k < 7 ==>
              && bs[k].date == IsoDay(now, utcOffset) - (6 - k)
              && bs[k].day == DayNames[Weekday(DayOf(now) - (6 - k))]
              && bs[k].total == 0.0 && bs[k].count == 0
  {
    seq(7, k requires 0 <= k < 7 => EmptyBucket(now, utcOffset, 6 - k))
  }

  predicate DistinctDates(bs: seq<DayBucket>)
  {
    forall i, j :: 0 <= i < j < |bs| ==> bs[i].date != bs[j].date
  }

  /** `dailyMap.get(date)`: the position of the bucket with that key, if any. */
  function IndexOfDate(bs: seq<DayBucket>, date: Day): (r: Option<nat>)
    ensures r.Some? ==> r.value < |bs| && bs[r.value].date == date
    ensures r.None? ==> forall j :: 0 <= j < |bs| ==> bs[j].date != date
  {
    if |bs| == 0 then None
    else if bs[0].date == date then Some(0)
    else match IndexOfDate(bs[1..], date)
      case Some(i) => Some(i + 1)
      case None => None
  }

  /** Whether a sale is counted in the bucket for `date`. */
  predicate Lands(s: Sale, since: Instant, utcOffset: int, date: Day)
  {
    since <= s.soldAt && IsoDay(s.soldAt, utcOffset) == date
  }

  /** The sales counted in the bucket for `date`, in order. */
  function Landing(sales: seq<Sale>, since: Instant, utcOffset: int, date: Day): seq<Sale>
  {
    Keep(sales, (s: Sale) => Lands(s, since, utcOffset, date))
  }

  /** One step of the pass: a sale at or after `since` adds its line total and one
      sale to the bucket keyed by its ISO date, and is dropped when no bucket has
      that key. Only that bucket can change. */
  function AddToBucket(bs: seq<DayBucket>, s: Sale, since: Instant, utcOffset: int): (r: seq<DayBucket>)
    ensures |r| == |bs|
    ensures forall k :: 0 <= k < |bs| ==> r[k].date == bs[k].date && r[k].day == bs[k].day
    ensures forall k :: 0 <= k < |bs| && r[k] != bs[k] ==> Lands(s, since, utcOffset, bs[k].date)
    ensures DistinctDates(bs) ==> forall k :: 0 <= k < |bs| ==>
              r[k] == if Lands(s, since, utcOffset, bs[k].date)
                      then bs[k].(total := bs[k].total + LineTotal(s), count := bs[k].count + 1)
                      else bs[k]
  {
    if since <= s.soldAt then
      match IndexOfDate(bs, IsoDay(s.soldAt, utcOffset))
      case Some(i) => bs[i := bs[i].(total := bs[i].total + LineTotal(s), count := bs[i].count + 1)]
      case None => bs
    else bs
  }

  /** `salesData.forEach(...)` over the buckets. */
  function Fill(bs: seq<DayBucket>, sales: seq<Sale>, since: Instant, utcOffset: int): seq<DayBucket>
  {
    if |sales| == 0 then bs
    else AddToBucket(Fill(bs, sales[..|sales| - 1], since, utcOffset), sales[|sales| - 1], since, utcOffset)
  }

  /** Filling distinct-keyed buckets adds to each exactly the sales that land in it. */
  lemma {:induction false} FillAddsLanding(bs: seq<DayBucket>, sales: seq<Sale>, since: Instant, utcOffset: int)
    requires DistinctDates(bs)
    ensures var r := Fill(bs, sales, since, utcOffset);
            && |r| == |bs|
            && forall k :: 0 <= k < |bs| ==>
                 var landing := Landing(sales, since, utcOffset, bs[k].date);
                 r[k] == bs[k].(total := bs[k].total + Sum(landing, LineTotal),
                                count := bs[k].count + |landing|)
    decreases |sales|
  {
    if |sales| > 0 {
      var init := sales[..|sales| - 1];
      var s := sales[|sales| - 1];
      FillAddsLanding(bs, init, since, utcOffset);
      var f := Fill(bs, init, since, utcOffset);
      assert DistinctDates(f) by {
        forall i, j | 0 <= i < j < |f| ensures f[i].date != f[j].date {
          assert f[i].date == bs[i].date && f[j].date == bs[j].date;
        }
      }
    }
  }

  /** The chart data: the seven buckets from six days ago to today, each holding the
      line total and number of the sales whose ISO date is its key. */
  function DailySales(now: Instant, utcOffset: int, sales: seq<Sale>): (r: seq<DayBucket>)
    ensures |r| == 7
    ensures forall k :: 0 <= k < 7 ==>
              var date := IsoDay(now, utcOffset) - (6 - k);
              var landing := Landing(sales, Midnight(DayOf(now) - 6), utcOffset, date);
              && r[k].date == date
              && r[k].day == DayNames[Weekday(DayOf(now) - (6 - k))]
              && r[k].total == Sum(landing, LineTotal)
              && r[k].count == |landing|
  {
    var empty := EmptyBuckets(now, utcOffset);
    FillAddsLanding(empty, sales, Midnight(DayOf(now) - 6), utcOffset);
    Fill(empty, sales, Midnight(DayOf(now) - 6), utcOffset)
  }

  /** When the clock's zone is UTC, the ISO date is the local date and the buckets
      partition the window: their totals add up to the half-open range total from six
      days ago to tomorrow, and their counts to the number of sales in it. */
  lemma BucketsPartitionWindow(now: Instant, sales: seq<Sale>)
    ensures var since := Midnight(DayOf(now) - 6);
            var tomorrow := Midnight(DayOf(now) + 1);
            && Sum(DailySales(now, 0, sales), BucketTotal) == Total(sales, since, tomorrow)
            && SumInt(DailySales(now, 0, sales), BucketCount) == |InRange(sales, since, tomorrow)|
  {
    var empty := EmptyBuckets(now, 0);
    assert Sum(empty, BucketTotal) == 0.0 by { SumOfZeros(empty); }
    assert SumInt(empty, BucketCount) == 0 by { SumOfZeros(empty); }
    FillSums(empty, sales, now);
  }

  lemma {:induction false} SumOfZeros(bs: seq<DayBucket>)
    requires forall k :: 0 <= k < |bs| ==> bs[k].total == 0.0 && bs[k].count == 0
    ensures Sum(bs, BucketTotal) == 0.0 && SumInt(bs, BucketCount) == 0
  {
    if |bs| > 0 {
      SumOfZeros(bs[..|bs| - 1]);
    }
  }

  lemma {:induction false} FillSums(bs: seq<DayBucket>, sales: seq<Sale>, now: Instant)
    requires |bs| == 7 && forall k :: 0 <= k < 7 ==> bs[k].date == DayOf(now) - (6 - k)
    ensures var since := Midnight(DayOf(now) - 6);
            var tomorrow := Midnight(DayOf(now) + 1);
            var r := Fill(bs, sales, since, 0);
            && Sum(r, BucketTotal) == Sum(bs, BucketTotal) + Total(sales, since, tomorrow)
            && SumInt(r, BucketCount) == SumInt(bs, BucketCount) + |InRange(sales, since, tomorrow)|
    decreases |sales|
  {
    var since := Midnight(DayOf(now) - 6);
    var tomorrow := Midnight(DayOf(now) + 1);
    if |sales| == 0 {
      assert InRange(sales, since, tomorrow) == [];
    } else {
      var init := sales[..|sales| - 1];
      var s := sales[|sales| - 1];
      assert sales == init + [s];
      FillSums(bs, init, now);
      FillKeepsDates(bs, init, since, 0);
      AddToBucketSums(Fill(bs, init, since, 0), s, now);
      CountAppendOne(init, s, since, tomorrow);
      TotalAppend(init, [s], since, tomorrow);
      TotalOfOne(s, since, tomorrow);
    }
  }

  /** With UTC keys over the seven days ending today, a sale adds to the bucket sums
      exactly when it lies in the half-open window. */
  lemma AddToBucketSums(f: seq<DayBucket>, s: Sale, now: Instant)
    requires |f| == 7 && forall k :: 0 <= k < 7 ==> f[k].date == DayOf(now) - (6 - k)
    ensures var since := Midnight(DayOf(now) - 6);
            var tomorrow := Midnight(DayOf(now) + 1);
            var r := AddToBucket(f, s, since, 0);
            var inside := InHalfOpen(s, since, tomorrow);
            && Sum(r, BucketTotal) == Sum(f, BucketTotal) + (if inside then LineTotal(s) else 0.0)
            && SumInt(r, BucketCount) == SumInt(f, BucketCount) + (if inside then 1 else 0)
  {
    var since := Midnight(DayOf(now) - 6);
    var tomorrow := Midnight(DayOf(now) + 1);
    var key := IsoDay(s.soldAt, 0);
    assert key == DayOf(s.soldAt);
    if since <= s.soldAt {
      var idx := IndexOfDate(f, key);
      if s.soldAt < tomorrow {
        var k := key - (DayOf(now) - 6);
        assert 0 <= k < 7 && f[k].date == key;
        assert idx.Some? && idx.value == k;
        var b' := f[k].(total := f[k].total + LineTotal(s), count := f[k].count + 1);
        SumUpdate(f, k, b', BucketTotal);
        SumIntUpdate(f, k, b', BucketCount);
      } else {
        assert idx.None?;
      }
    }
  }

  lemma {:induction false} FillKeepsDates(bs: seq<DayBucket>, sales: seq<Sale>, since: Instant, utcOffset: int)
    ensures var r := Fill(bs, sales, since, utcOffset);
            |r| == |bs| && forall k :: 0 <= k < |bs| ==> r[k].date == bs[k].date
    decreases |sales|
  {
    if |sales| > 0 {
      FillKeepsDates(bs, sales[..|sales| - 1], since, utcOffset);
    }
  }
}
