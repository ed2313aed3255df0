/** What a histogram flush reports, whatever the samples. */
module Histograms {
  import opened Prelude
  import Buckets
  import opened Sorting
  import opened Metrics

  // ---------- the guard ----------

  lemma WeightAtLeastOne(rate: real)
    requires 0.0 < rate <= 1.0
    ensures Weight(rate) >= 1
  {
    var q := 1.0 / rate;
    assert q * rate == 1.0;
    if q < 1.0 { Scaled(q, 1.0, rate); }
  }

  /** A sample at rate r stands for the most whole points w with w r <= 1. */
  lemma WeightMeaning(rate: real)
    requires rate > 0.0
    ensures Weight(rate) as real * rate <= 1.0 < (Weight(rate) as real + 1.0) * rate
  {
    hide Weight;
    WeightFloors(rate);
    Reciprocal(rate);
    Between(Weight(rate) as real, 1.0 / rate, rate);
  }

  lemma WeightFloors(rate: real)
    requires rate > 0.0
    ensures Weight(rate) as real <= 1.0 / rate < Weight(rate) as real + 1.0
  {
    Reciprocal(rate);
  }

  lemma Reciprocal(rate: real)
    requires rate > 0.0
    ensures 1.0 / rate > 0.0 && 1.0 / rate * rate == 1.0
  {
  }

  lemma Between(w: real, q: real, rate: real)
    requires rate > 0.0 && w <= q < w + 1.0 && q * rate == 1.0
    ensures w * rate <= 1.0 < (w + 1.0) * rate
  {
    if w < q { Scaled(w, q, rate); }
    Scaled(q, w + 1.0, rate);
  }

  /** A histogram after a run of samples (value, rate, time). */
  function AfterSamples(samples: seq<(real, real, real)>): SoundCell
    decreases |samples|
  {
    if samples == [] then Fresh(HistogramType)
    else
      var n := |samples| - 1;
      var before := AfterSamples(samples[..n]);
      var r := Sample(before, samples[n].0, samples[n].1, samples[n].2);
      if r.Some? then r.value else before
  }

  /** With rates in (0, 1] the count covers the samples, so that a histogram with samples
      is always flushed; with any rates, one that is flushed has samples. */
  lemma {:induction false} CountCoversSamples(samples: seq<(real, real, real)>)
    ensures var cell := AfterSamples(samples);
      && cell.metric.HistogramMetric?
      && (cell.metric.count != 0 ==> cell.metric.samples != [])
      && ((forall i :: 0 <= i < |samples| ==> 0.0 < samples[i].1 <= 1.0) ==>
            |cell.metric.samples| == |samples| <= cell.metric.count)
    decreases |samples|
  {
    if samples != [] {
      var n := |samples| - 1;
      CountCoversSamples(samples[..n]);
      if 0.0 < samples[n].1 <= 1.0 { WeightAtLeastOne(samples[n].1); }
      assert forall i :: 0 <= i < n ==> samples[..n][i] == samples[i];
    }
  }

  // ---------- order statistics ----------

  ghost predicate Ascending(xs: seq<real>) {
    forall i, j :: 0 <= i <= j < |xs| ==> xs[i] <= xs[j]
  }

  lemma SortedSamples(samples: seq<real>)
    ensures Ascending(Sort(samples, RealLe)) && |Sort(samples, RealLe)| == |samples|
    ensures multiset(Sort(samples, RealLe)) == multiset(samples)
  {
    SortSorts(samples, RealLe);
    SortPermutes(samples, RealLe);
    var s := Sort(samples, RealLe);
    forall i, j | 0 <= i <= j < |s| ensures s[i] <= s[j] {
      if i < j { assert RealLe(s[i], s[j]); }
    }
  }

  lemma {:induction false} SumBounds(xs: seq<real>, lo: real, hi: real)
    requires forall i :: 0 <= i < |xs| ==> lo <= xs[i] <= hi
    ensures lo * |xs| as real <= SumOf(xs) <= hi * |xs| as real
    decreases |xs|
  {
    if xs != [] {
      var n := |xs| - 1;
      SumBounds(xs[..n], lo, hi);
      assert lo * |xs| as real == lo * n as real + lo;
      assert hi * |xs| as real == hi * n as real + hi;
    }
  }

  lemma AverageBetween(sum: real, n: real, lo: real, hi: real)
    requires n > 0.0 && lo * n <= sum <= hi * n
    ensures lo <= sum / n <= hi
  {
    Buckets.TimesQuotient(sum, n);
    var average := sum / n;
    if average < lo { Scaled(average, lo, n); }
    if average > hi { Scaled(hi, average, n); }
  }

  lemma Scaled(a: real, b: real, n: real)
    requires a < b && n > 0.0
    ensures a * n < b * n
  {
  }

  /** The ends of the sorted samples are the least and the greatest sample. */
  lemma Extremes(samples: seq<real>)
    requires samples != []
    ensures |Sort(samples, RealLe)| == |samples| && Ascending(Sort(samples, RealLe))
    ensures Sort(samples, RealLe)[0] in samples && Sort(samples, RealLe)[|samples| - 1] in samples
    ensures forall x :: x in samples ==> Sort(samples, RealLe)[0] <= x <= Sort(samples, RealLe)[|samples| - 1]
  {
    SortedSamples(samples);
    hide Sort;
    var s := Sort(samples, RealLe);
    assert s[0] in multiset(s) && s[|s| - 1] in multiset(s);
    forall x | x in samples ensures s[0] <= x <= s[|s| - 1] {
      assert x in multiset(s);
      assert x in s;
    }
  }

  /** Median, average and every percentile stay within any bounds on the samples. */
  lemma WithinRange(samples: seq<real>, p: real, lo: real, hi: real)
    requires samples != [] && 0.0 <= p <= 1.0 && forall x :: x in samples ==> lo <= x <= hi
    ensures lo <= AggregateValue(Median, SortedOf(samples), 0, 1.0) <= hi
    ensures lo <= AggregateValue(Avg, SortedOf(samples), 0, 1.0) <= hi
    ensures lo <= PercentileValue(p, SortedOf(samples)) <= hi
  {
    Extremes(samples);
    StatisticsBetween(SortedOf(samples), p);
    hide AggregateValue, PercentileValue, Sort;
  }

  function SortedOf(samples: seq<real>): (s: seq<real>)
    ensures |s| == |samples|
  {
    SortPermutes(samples, RealLe);
    Sort(samples, RealLe)
  }

  lemma {:induction false} SumPrepend(x: real, xs: seq<real>)
    ensures SumOf([x] + xs) == x + SumOf(xs)
    decreases |xs|
  {
    if xs == [] {
      assert ([x] + xs)[..0] == [];
    } else {
      var n := |xs| - 1;
      SumPrepend(x, xs[..n]);
      assert ([x] + xs)[..n + 1] == [x] + xs[..n];
    }
  }

  lemma {:induction false} SumInsert(x: real, xs: seq<real>)
    ensures SumOf(Insert(x, xs, RealLe)) == x + SumOf(xs)
    decreases |xs|
  {
    SumPrepend(x, xs);
    if xs != [] && !RealLe(x, xs[0]) {
      SumInsert(x, xs[1..]);
      SumPrepend(xs[0], Insert(x, xs[1..], RealLe));
      SumPrepend(xs[0], xs[1..]);
      assert xs == [xs[0]] + xs[1..];
    }
  }

  lemma {:induction false} SumSort(xs: seq<real>)
    ensures SumOf(Sort(xs, RealLe)) == SumOf(xs)
    decreases |xs|
  {
    if xs != [] {
      SumSort(xs[1..]);
      SumInsert(xs[0], Sort(xs[1..], RealLe));
      SumPrepend(xs[0], xs[1..]);
      assert xs == [xs[0]] + xs[1..];
    }
  }

  /** What the aggregates say about the samples themselves: min and max are the extreme
      samples, sum is their sum, avg shares it equally. */
  lemma AggregatesMean(samples: seq<real>, count: int, interval: real)
    requires samples != [] && interval > 0.0
    ensures var s := SortedOf(samples);
      && AggregateValue(Min, s, count, interval) in samples && AggregateValue(Max, s, count, interval) in samples
      && (forall x :: x in samples ==> AggregateValue(Min, s, count, interval) <= x <= AggregateValue(Max, s, count, interval))
      && AggregateValue(Sum, s, count, interval) == SumOf(samples)
      && AggregateValue(Avg, s, count, interval) * |samples| as real == SumOf(samples)
  {
    hide Sort, SumOf, Ascending;
    Extremes(samples);
    SumSort(samples);
    Buckets.TimesQuotient(SumOf(samples), |samples| as real);
  }

  /** The median splits two or more sorted samples at half their number. */
  lemma MedianSplits(samples: seq<real>, count: int, interval: real, i: nat)
    requires i < |samples| && |samples| >= 2 && interval > 0.0
    ensures var s := SortedOf(samples); var median := AggregateValue(Median, s, count, interval);
      if i < |s| / 2 then s[i] <= median else median <= s[i]
  {
    hide Sort;
    SortedSamples(samples);
  }

  lemma StatisticsBetween(s: seq<real>, p: real)
    requires s != [] && Ascending(s) && 0.0 <= p <= 1.0
    ensures s[0] <= AggregateValue(Median, s, 0, 1.0) <= s[|s| - 1]
    ensures s[0] <= AggregateValue(Avg, s, 0, 1.0) <= s[|s| - 1]
    ensures s[0] <= PercentileValue(p, s) <= s[|s| - 1]
  {
    IndicesInRange(|s|, p);
    SumBounds(s, s[0], s[|s| - 1]);
    AverageBetween(SumOf(s), |s| as real, s[0], s[|s| - 1]);
    InRange(s, MedianIndex(|s|));
    InRange(s, PercentileIndex(p, |s|));
    hide PercentileIndex, MedianIndex, SumOf;
  }

  lemma InRange(s: seq<real>, i: int)
    requires Ascending(s) && s != [] && -1 <= i < |s|
    ensures s[0] <= At(s, i) <= s[|s| - 1]
  {
  }

  lemma RoundMonotone(x: real, y: real)
    requires x <= y
    ensures Round(x) <= Round(y)
  {
    if x >= 0.0 {
      assert (x + 0.5).Floor <= (y + 0.5).Floor;
    } else if y < 0.0 {
      assert (-y + 0.5).Floor <= (-x + 0.5).Floor;
    }
  }

  /** The index wraps round to the last sample exactly when p n <= 1/2. */
  lemma WrapsIff(p: real, n: nat)
    requires n > 0 && 0.0 <= p <= 1.0
    ensures PercentileIndex(p, n) == -1 <==> p * n as real <= 0.5
  {
    IndicesInRange(n, p);
    RoundHalf(p * n as real - 1.0);
  }

  lemma RoundHalf(x: real)
    requires x >= -1.0
    ensures Round(x) == -1 <==> x <= -0.5
  {
  }

  /** Percentiles ascend with p once p n exceeds 1/2; below that they are the maximum. */
  lemma PercentilesAscend(s: seq<real>, p: real, q: real)
    requires Ascending(s) && s != [] && 0.0 <= p <= q <= 1.0
    ensures p * |s| as real > 0.5 ==> PercentileValue(p, s) <= PercentileValue(q, s)
    ensures p * |s| as real <= 0.5 ==> PercentileValue(p, s) == s[|s| - 1]
  {
    var n := |s|;
    IndicesInRange(n, p);
    IndicesInRange(n, q);
    WrapsIff(p, n);
    IndexMonotone(p, q, n);
    hide PercentileIndex;
  }

  lemma IndexMonotone(p: real, q: real, n: nat)
    requires 0.0 <= p <= q
    ensures PercentileIndex(p, n) <= PercentileIndex(q, n)
  {
    var a, b := p * n as real, q * n as real;
    Scale(p, q, n as real);
    assert a <= b;
    RoundMonotone(a - 1.0, b - 1.0);
  }

  /** Of three different samples, the tenth percentile is above the median percentile. */
  lemma LowPercentileExceeds(a: real, b: real, c: real)
    requires a < b < c
    ensures PercentileValue(0.1, [a, b, c]) == c > PercentileValue(0.5, [a, b, c])
  {
    assert PercentileIndex(0.1, 3) == -1;
    assert PercentileIndex(0.5, 3) == 1;
  }

  /** Nearest rank: the sample reported is within half a rank of p n, counted from one. */
  lemma NearestRank(p: real, n: nat)
    requires n > 0 && 0.0 <= p <= 1.0 && p * n as real > 0.5
    ensures var rank := PercentileIndex(p, n) + 1;
      1 <= rank <= n && rank as real - 0.5 <= p * n as real <= rank as real + 0.5
  {
    IndicesInRange(n, p);
    WrapsIff(p, n);
  }

  /** A flush depends on the samples but not on their order. */
  lemma OrderIndependent(hc: HistogramConfig, count: int, samples: seq<real>, samples': seq<real>, ts: real,
        interval: real)
    requires ValidConfig(hc) && interval > 0.0 && (count != 0 ==> samples != [] && samples' != [])
    requires multiset(samples) == multiset(samples')
    ensures HistogramPoints(hc, count, samples, ts, interval) == HistogramPoints(hc, count, samples', ts, interval)
  {
    SortPermutes(samples, RealLe);
    SortPermutes(samples', RealLe);
    SortSorts(samples, RealLe);
    SortSorts(samples', RealLe);
    SortedUnique(Sort(samples, RealLe), Sort(samples', RealLe), RealLe);
  }

  // ---------- what the reported numbers are ----------

  /** `v` is the r-th smallest of the samples, counted from one. */
  ghost predicate IsRank(samples: seq<real>, r: int, v: real) {
    exists s :: Ascending(s) && multiset(s) == multiset(samples) && 1 <= r <= |s| && s[r - 1] == v
  }

  /** There is only one. */
  lemma RankIsOne(samples: seq<real>, r: int, v: real, v': real)
    requires IsRank(samples, r, v) && IsRank(samples, r, v')
    ensures v == v'
  {
    var s :| Ascending(s) && multiset(s) == multiset(samples) && 1 <= r <= |s| && s[r - 1] == v;
    var t :| Ascending(t) && multiset(t) == multiset(samples) && 1 <= r <= |t| && t[r - 1] == v';
    SortedUnique(s, t, RealLe);
  }

  lemma SortedRank(samples: seq<real>, r: int)
    requires 1 <= r <= |samples|
    ensures IsRank(samples, r, SortedOf(samples)[r - 1])
  {
    SortedSamples(samples);
  }

  /** What each aggregate says about the samples and their count. */
  ghost predicate IsAggregate(a: Aggregate, samples: seq<real>, count: int, interval: real, v: real) {
    match a
    case Min => v in samples && forall x :: x in samples ==> v <= x
    case Max => v in samples && forall x :: x in samples ==> x <= v
    case Median => IsRank(samples, if |samples| == 1 then 1 else |samples| / 2, v)
    case Sum => v == SumOf(samples)
    case Avg => v * |samples| as real == SumOf(samples)
    case Count => v * interval == count as real
  }

  lemma AggregateMeaning(a: Aggregate, samples: seq<real>, count: int, interval: real)
    requires samples != [] && interval > 0.0
    ensures IsAggregate(a, samples, count, interval, AggregateValue(a, SortedOf(samples), count, interval))
  {
    hide Sort, SumOf, IsRank;
    match a
    case Median =>
      SortedRank(samples, if |samples| == 1 then 1 else |samples| / 2);
    case Count => Buckets.TimesQuotient(count as real, interval);
    case Min => AggregatesMean(samples, count, interval);
    case Max => AggregatesMean(samples, count, interval);
    case Sum => AggregatesMean(samples, count, interval);
    case Avg => AggregatesMean(samples, count, interval);
  }

  /** The percentile is the sample whose rank is p n rounded to the nearest, halves up; when
      that is no more than one half, the greatest. */
  ghost predicate IsPercentile(p: real, samples: seq<real>, v: real) {
    exists r :: IsRank(samples, r, v) && NearestTo(p * |samples| as real, |samples|, r)
  }

  predicate NearestTo(x: real, n: nat, r: int) {
    if x <= 0.5 then r == n else r as real - 0.5 <= x < r as real + 0.5
  }

  lemma PercentileMeaning(p: real, samples: seq<real>)
    requires samples != [] && 0.0 <= p <= 1.0
    ensures IsPercentile(p, samples, PercentileValue(p, SortedOf(samples)))
  {
    hide Sort, IsRank, Ascending;
    var n := |samples|;
    var x := p * n as real;
    var r := if x <= 0.5 then n else PercentileIndex(p, n) + 1;
    IndicesInRange(n, p);
    WrapsIff(p, n);
    if x > 0.5 { RoundNearest(x - 1.0); }
    SortedRank(samples, r);
    assert NearestTo(x, n, r);
  }

  lemma RoundNearest(x: real)
    requires x > -0.5
    ensures Round(x) as real - 0.5 <= x < Round(x) as real + 0.5
  {
  }
}
