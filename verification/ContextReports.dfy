/** What a context reports for a bucket, in terms of the points submitted for it. */
module ContextReports {
  import opened Prelude
  import opened Buckets
  import opened Metrics
  import opened Histograms
  import opened ContextFlow
  import opened ContextTheorems
  import opened ContextLaws
  import opened ContextGrouping

  // ---------- the points of one bucket ----------

  /** The points with this timestamp, in order. */
  function ReportedAt(points: seq<Point>, b: real): seq<Point>
    decreases |points|
  {
    if points == [] then []
    else
      var n := |points| - 1;
      ReportedAt(points[..n], b) + if points[n].timestamp == b then [points[n]] else []
  }

  lemma {:induction false} ReportedJoin(a: seq<Point>, c: seq<Point>, b: real)
    ensures ReportedAt(a + c, b) == ReportedAt(a, b) + ReportedAt(c, b)
    decreases |c|
  {
    if c == [] {
      assert a + c == a;
    } else {
      var n := |c| - 1;
      ReportedJoin(a, c[..n], b);
      assert (a + c)[..|a| + n] == a + c[..n];
    }
  }

  lemma {:induction false} ReportedAlike(points: seq<Point>, t: real, b: real)
    requires forall p :: p in points ==> p.timestamp == t
    ensures ReportedAt(points, b) == if t == b then points else []
    decreases |points|
  {
    if points != [] {
      var n := |points| - 1;
      assert points == points[..n] + [points[n]];
      ReportedAlike(points[..n], t, b);
    }
  }

  /** What a bucket's own metric reports. */
  function OwnPoints(cfg: Config, cell: Option<SoundCell>, b: real, expiry: real): seq<Point> {
    if cell.None? || Expired(cell.value.sampledAt, expiry) then []
    else FlushPoints(cfg.histograms, cell.value, b, cfg.interval)
  }

  ghost predicate NoCounters(mine: map<real, SoundCell>) {
    forall b :: b in mine ==> !mine[b].metric.CounterMetric?
  }

  /** A bucket reports its own metric, and nothing but that for a context without counters. */
  lemma {:induction false} CloseReports(cfg: Config, mine: map<real, SoundCell>, last: Option<real>, bs: seq<real>,
        cutoff: real, expiry: real, b: real)
    requires StrictlyAscending(bs) && (CounterCells(mine) || (NoCounters(mine) && last.None?))
    ensures var r := CloseBuckets(cfg, mine, last, bs, cutoff, expiry);
      && (NoCounters(mine) && last.None? ==> r.last.None?)
      && (b in mine || (NoCounters(mine) && last.None?) ==>
            ReportedAt(r.points, b) == if b in bs && b < cutoff then OwnPoints(cfg, Lookup(mine, b), b, expiry) else [])
    decreases |bs|
  {
    hide ReportedAt, FlushPoints, CloseBucket, OwnPoints, Expired;
    if bs == [] {
      NothingReported(b);
    } else {
      var n := |bs| - 1;
      CloseReports(cfg, mine, last, bs[..n], cutoff, expiry, b);
      assert bs == bs[..n] + [bs[n]] && bs[n] !in bs[..n];
      var own := OwnPoints(cfg, Lookup(mine, b), b, expiry);
      assert [] + own == own;
      if bs[n] < cutoff {
        var before := CloseBuckets(cfg, mine, last, bs[..n], cutoff, expiry);
        ReportsOneMore(cfg, before, Lookup(mine, bs[n]), bs[n], expiry, b);
      }
    }
  }

  /** One bucket more adds its own points at its own timestamp only. */
  lemma ReportsOneMore(cfg: Config, before: Emission, cell: Option<SoundCell>, at: real, expiry: real, b: real)
    ensures var r := CloseBucket(cfg, cell, before.last, at, expiry);
      var own := cell.Some? && cell.value.metric.CounterMetric?;
      var alone := before.last.None? && !own;
      && (alone ==> r.last.None?)
      && (at != b ==> ReportedAt(before.points + r.points, b) == ReportedAt(before.points, b))
      && (at == b && (own || alone) ==>
            ReportedAt(before.points + r.points, b) == ReportedAt(before.points, b) + OwnPoints(cfg, cell, b, expiry))
  {
    hide ReportedAt, FlushPoints, CloseBucket, OwnPoints;
    CloseOwn(cfg, cell, before.last, at, expiry);
    CloseStamps(cfg, cell, before.last, at, expiry);
    var r := CloseBucket(cfg, cell, before.last, at, expiry);
    ReportedJoin(before.points, r.points, b);
    ReportedAlike(r.points, at, b);
    assert ReportedAt(before.points, b) + [] == ReportedAt(before.points, b);
  }

  lemma NothingReported(b: real)
    ensures ReportedAt([], b) == []
  {
  }

  lemma CloseOwn(cfg: Config, cell: Option<SoundCell>, last: Option<real>, b: real, expiry: real)
    ensures var r := CloseBucket(cfg, cell, last, b, expiry);
      && (cell.Some? && cell.value.metric.CounterMetric? ==> r.points == OwnPoints(cfg, cell, b, expiry))
      && (last.None? && (cell.Some? ==> !cell.value.metric.CounterMetric?) ==>
            r.last.None? && r.points == OwnPoints(cfg, cell, b, expiry))
  {
    hide FlushPoints;
    if cell.Some? {
      var ps := FlushPoints(cfg.histograms, cell.value, b, cfg.interval);
      assert ps + [] == ps;
    }
  }

  lemma EmissionReports(cfg: Config, v: View, now: real, b: real)
    requires v.mine.Keys <= v.buckets && (CounterCells(v.mine) || (NoCounters(v.mine) && v.last.None?))
    requires b in v.mine || (NoCounters(v.mine) && v.last.None?)
    ensures ReportedAt(FlushEmission(cfg, v, now).points, b) ==
            if b < BucketStart(now, cfg.interval) then OwnPoints(cfg, Lookup(v.mine, b), b, now - cfg.expirySeconds) else []
  {
    hide BucketStart, ReportedAt, CloseBuckets, FlushPoints, Expired;
    CloseReports(cfg, v.mine, v.last, Sorted(v.buckets), BucketStart(now, cfg.interval), now - cfg.expirySeconds, b);
    if b in v.mine { assert b in v.mine.Keys; }
    NothingReported(b);
  }

  // ---------- runs of one type ----------

  ghost predicate AllMine(events: seq<Event>, mtype: MetricType) {
    forall i :: 0 <= i < |events| && events[i].Mine? ==> events[i].point.mtype == mtype
  }

  /** Either all metrics are counters, or none is and none was ever recorded. */
  ghost predicate OneKind(mtype: MetricType, v: View) {
    && v.mine.Keys <= v.buckets
    && (if mtype.CounterType? then CounterCells(v.mine) else NoCounters(v.mine) && v.last.None?)
  }

  lemma {:induction false} OneKindAlways(cfg: Config, events: seq<Event>, mtype: MetricType)
    requires AllMine(events, mtype) && !mtype.UnknownType?
    ensures OneKind(mtype, Run(cfg, events).view)
    decreases |events|
  {
    hide OneKind, SubmitMine, SubmitOther, Flush, FlushEmission;
    if events == [] {
      NothingKind(mtype);
    } else {
      var n := |events| - 1;
      assert forall i :: 0 <= i < n ==> events[..n][i] == events[i];
      OneKindAlways(cfg, events[..n], mtype);
      var v := Run(cfg, events[..n]).view;
      match events[n]
      case Mine(p) => SubmitKind(cfg, v, p);
      case Other(timestamp, now) => OtherKind(cfg, v, timestamp, now, mtype);
      case Flushed(now) => FlushKind(cfg, v, now, mtype);
    }
  }

  lemma NothingKind(mtype: MetricType)
    ensures OneKind(mtype, Initial())
  {
  }

  lemma SubmitKind(cfg: Config, v: View, p: Submission)
    requires OneKind(p.mtype, v) && !p.mtype.UnknownType?
    ensures OneKind(p.mtype, SubmitMine(cfg, v, p))
  {
    hide BucketOf, TooOld, Weight;
  }

  lemma OtherKind(cfg: Config, v: View, timestamp: Option<real>, now: real, mtype: MetricType)
    requires OneKind(mtype, v)
    ensures OneKind(mtype, SubmitOther(cfg, v, timestamp, now))
  {
    hide BucketOf, TooOld;
  }

  lemma FlushKind(cfg: Config, v: View, now: real, mtype: MetricType)
    requires OneKind(mtype, v)
    ensures OneKind(mtype, Flush(cfg, v, now))
  {
    hide BucketStart, CloseBuckets;
    var cutoff := BucketStart(now, cfg.interval);
    RemainingKeys(v.mine, v.buckets, cutoff);
    if !mtype.CounterType? {
      CloseReports(cfg, v.mine, v.last, Sorted(v.buckets), cutoff, now - cfg.expirySeconds, 0.0);
    }
  }

  lemma {:induction false} PendingAllOf(cfg: Config, events: seq<Event>, mtype: MetricType)
    requires AllMine(events, mtype)
    ensures AllOf(PendingPoints(cfg, events), mtype)
    decreases |events|
  {
    hide BucketStart, TooOld, FromCutoff;
    if events != [] {
      var n := |events| - 1;
      assert forall i :: 0 <= i < n ==> events[..n][i] == events[i];
      PendingAllOf(cfg, events[..n], mtype);
      if events[n].Flushed? { FromCutoffAllOf(cfg, PendingPoints(cfg, events[..n]), BucketStart(events[n].now, cfg.interval), mtype); }
    }
  }

  lemma {:induction false} FromCutoffAllOf(cfg: Config, ps: seq<Submission>, cutoff: real, mtype: MetricType)
    requires AllOf(ps, mtype)
    ensures AllOf(FromCutoff(cfg, ps, cutoff), mtype)
    decreases |ps|
  {
    hide BucketFor;
    if ps != [] { FromCutoffAllOf(cfg, ps[..|ps| - 1], cutoff, mtype); }
  }

  lemma {:induction false} InBucketAllOf(cfg: Config, ps: seq<Submission>, b: real, mtype: MetricType)
    requires AllOf(ps, mtype)
    ensures AllOf(InBucket(cfg, ps, b), mtype)
    decreases |ps|
  {
    hide BucketFor;
    if ps != [] { InBucketAllOf(cfg, ps[..|ps| - 1], b, mtype); }
  }

  // ---------- sample times ----------

  /** The points that went through: with a zero rate, counters and histograms raise. */
  function Effective(ps: seq<Submission>, mtype: MetricType): seq<Submission> {
    if Divides(mtype) then NonzeroRated(ps) else ps
  }

  lemma EffectiveSnoc(ps: seq<Submission>, mtype: MetricType)
    requires ps != []
    ensures var n := |ps| - 1;
      Effective(ps, mtype) == Effective(ps[..n], mtype) + if Divides(mtype) && ps[n].rate == 0.0 then [] else [ps[n]]
    ensures Effective([], mtype) == []
  {
    assert ps == ps[..|ps| - 1] + [ps[|ps| - 1]];
  }

  lemma {:induction false} FoldTimes(ps: seq<Submission>, mtype: MetricType)
    requires ps != [] && AllOf(ps, mtype) && !mtype.UnknownType?
    ensures var r, es := Fold(ps), Effective(ps, mtype);
      && r.Some? && (DividesCell(r.value) <==> Divides(mtype))
      && r.value.sampledAt == if es == [] then None else Some(es[|es| - 1].sampledAt)
    decreases |ps|
  {
    hide SampleInto, AllOf, DividesCell, Divides, Effective;
    var n := |ps| - 1;
    AllOfPrefix(ps, mtype);
    EffectiveSnoc(ps, mtype);
    if n == 0 {
      assert ps[..0] == [];
      SampleFirst(ps[0]);
    } else {
      FoldTimes(ps[..n], mtype);
      SampleAgain(Fold(ps[..n]).value, ps[n]);
    }
  }

  // ---------- what is reported ----------

  /** The pending points of a bucket before the n-th event of a run. */
  function PointsOf(cfg: Config, events: seq<Event>, n: nat, b: real): seq<Submission>
    requires n <= |events|
  {
    InBucket(cfg, PendingPoints(cfg, events[..n]), b)
  }

  /** A flush reports the bucket: it is complete, and its last point is not too old. */
  predicate Completes(cfg: Config, now: real, b: real, effective: seq<Submission>) {
    && b < BucketStart(now, cfg.interval) && effective != []
    && effective[|effective| - 1].sampledAt >= now - cfg.expirySeconds
  }

  /** For a context of one type: the points of a bucket with submissions are those of the
      metric its pending points fold into. */
  lemma FlushReports(cfg: Config, events: seq<Event>, n: nat, b: real, mtype: MetricType)
    requires n < |events| && events[n].Flushed? && AllMine(events, mtype) && !mtype.UnknownType?
    ensures var ps, now := PointsOf(cfg, events, n, b), events[n].now;
      && AllOf(ps, mtype)
      && (ps == [] && !mtype.CounterType? ==> ReportedAt(EmittedAt(cfg, events, n), b) == [])
      && (ps != [] ==>
            && Fold(ps).Some?
            && ReportedAt(EmittedAt(cfg, events, n), b) ==
               if Completes(cfg, now, b, Effective(ps, mtype)) then FlushPoints(cfg.histograms, Fold(ps).value, b, cfg.interval) else [])
  {
    hide RunFrom, BucketStart, ReportedAt, FlushPoints, FlushEmission, Fold, InBucket, PendingPoints, CounterCells, NoCounters,
         AllOf, Effective;
    var before, now := events[..n], events[n].now;
    assert forall i :: 0 <= i < n ==> before[i] == events[i];
    OneKindAlways(cfg, before, mtype);
    PendingAllOf(cfg, before, mtype);
    InBucketAllOf(cfg, PendingPoints(cfg, before), b, mtype);
    GroupsPendingPoints(cfg, before, b);
    var v, ps := Run(cfg, before).view, PointsOf(cfg, events, n, b);
    if ps != [] {
      FoldTimes(ps, mtype);
      EmissionReports(cfg, v, now, b);
    } else if !mtype.CounterType? {
      FoldNothing();
      EmissionReports(cfg, v, now, b);
    }
  }

  lemma FoldNothing()
    ensures Fold([]) == None
  {
  }

  /** A gauge reports the value of the last point of each completed bucket, and nothing else. */
  lemma GaugeReports(cfg: Config, events: seq<Event>, n: nat, b: real)
    requires n < |events| && events[n].Flushed? && AllMine(events, GaugeType)
    ensures var ps := PointsOf(cfg, events, n, b);
      ReportedAt(EmittedAt(cfg, events, n), b) ==
      if Completes(cfg, events[n].now, b, ps) then [Point(Plain, b, ps[|ps| - 1].value)] else []
  {
    hide RunFrom, ReportedAt, FlushEmission, Fold, PointsOf, AllOf;
    FlushReports(cfg, events, n, b, GaugeType);
    var ps := PointsOf(cfg, events, n, b);
    if ps != [] { FoldGauges(ps); }
  }

  /** A set reports how many different values the points of each completed bucket had. */
  lemma SetReports(cfg: Config, events: seq<Event>, n: nat, b: real)
    requires n < |events| && events[n].Flushed? && AllMine(events, SetType)
    ensures var ps := PointsOf(cfg, events, n, b);
      ReportedAt(EmittedAt(cfg, events, n), b) ==
      if Completes(cfg, events[n].now, b, ps) then [Point(Plain, b, |set v | v in Values(ps)| as real)] else []
  {
    hide RunFrom, ReportedAt, FlushEmission, Fold, PointsOf, AllOf;
    FlushReports(cfg, events, n, b, SetType);
    var ps := PointsOf(cfg, events, n, b);
    if ps != [] {
      FoldSets(ps);
      SomeSamples(ps);
      SomeValue(Values(ps));
    }
  }

  lemma SomeValue(values: seq<real>)
    requires values != []
    ensures (set v | v in values) != {}
  {
    var first := values[0];
    var all := set v | v in values;
    assert first in values;
    assert all == {} ==> first !in all;
  }

  /** A counter reports the weighted sum of each completed bucket's points per second. */
  lemma CounterReports(cfg: Config, events: seq<Event>, n: nat, b: real)
    requires n < |events| && events[n].Flushed? && AllMine(events, CounterType)
    ensures var ps := PointsOf(cfg, events, n, b);
      ps != [] ==>
        ReportedAt(EmittedAt(cfg, events, n), b) ==
        if Completes(cfg, events[n].now, b, NonzeroRated(ps)) then [Point(Plain, b, WeightedSum(ps) / cfg.interval)] else []
  {
    hide RunFrom, ReportedAt, FlushEmission, Fold, PointsOf, AllOf, WeightedSum, NonzeroRated;
    FlushReports(cfg, events, n, b, CounterType);
    var ps := PointsOf(cfg, events, n, b);
    if ps != [] { FoldCounters(ps); }
  }

  /** The points of a histogram: first each configured aggregate once, then the configured
      percentiles in their order, each with the value its name says. */
  ghost predicate Summarises(hc: HistogramConfig, points: seq<Point>, b: real, samples: seq<real>, count: int, interval: real)
  {
    var m := |points| - |hc.percentiles|;
    && m >= 0
    && (forall p :: p in points ==> p.timestamp == b)
    && (forall i :: 0 <= i < m ==> Names(hc, points[i], samples, count, interval))
    && (forall i, j :: 0 <= i < j < m ==> points[i].suffix != points[j].suffix)
    && (forall a :: a in hc.aggregates ==> exists i :: 0 <= i < m && points[i].suffix == Aggregated(a))
    && (forall i :: 0 <= i < |hc.percentiles| ==>
          && points[m + i].suffix == Percentile(Truncate(hc.percentiles[i] * 100.0))
          && IsPercentile(hc.percentiles[i], samples, points[m + i].value))
  }

  /** A configured aggregate, with its value. */
  ghost predicate Names(hc: HistogramConfig, p: Point, samples: seq<real>, count: int, interval: real) {
    p.suffix.Aggregated? && p.suffix.aggregate in hc.aggregates &&
    IsAggregate(p.suffix.aggregate, samples, count, interval, p.value)
  }

  lemma {:induction false} AggregatesListed(order: seq<Aggregate>, wanted: seq<Aggregate>, samples: seq<real>, count: int, b: real, interval: real)
    requires samples != [] && interval > 0.0
    requires forall i, j :: 0 <= i < j < |order| ==> order[i] != order[j]
    ensures var points := AggregatePoints(order, wanted, SortedOf(samples), count, b, interval);
      && (forall p :: p in points ==>
            && p.timestamp == b && p.suffix.Aggregated? && p.suffix.aggregate in order && p.suffix.aggregate in wanted
            && IsAggregate(p.suffix.aggregate, samples, count, interval, p.value))
      && (forall i, j :: 0 <= i < j < |points| ==> points[i].suffix != points[j].suffix)
      && (forall a :: a in order && a in wanted ==> exists i :: 0 <= i < |points| && points[i].suffix == Aggregated(a))
    decreases |order|
  {
    hide IsAggregate, AggregateValue, SortedOf;
    if order != [] {
      var n := |order| - 1;
      var a := order[n];
      assert order == order[..n] + [a] && a !in order[..n];
      AggregatesListed(order[..n], wanted, samples, count, b, interval);
      AggregateMeaning(a, samples, count, interval);
      var before := AggregatePoints(order[..n], wanted, SortedOf(samples), count, b, interval);
      var points := AggregatePoints(order, wanted, SortedOf(samples), count, b, interval);
      assert forall i :: 0 <= i < |before| ==> before[i] in before && points[i] == before[i];
      if a in wanted { assert points[|before|].suffix == Aggregated(a); }
    }
  }

  lemma {:induction false} PercentilesListed(ps: seq<real>, samples: seq<real>, b: real)
    requires samples != [] && forall i :: 0 <= i < |ps| ==> 0.0 <= ps[i] < 1.0
    ensures var points := PercentilePoints(ps, SortedOf(samples), b);
      && |points| == |ps|
      && (forall i :: 0 <= i < |ps| ==>
            && points[i].timestamp == b && points[i].suffix == Percentile(Truncate(ps[i] * 100.0))
            && IsPercentile(ps[i], samples, points[i].value))
    decreases |ps|
  {
    hide IsPercentile, PercentileValue, SortedOf;
    if ps != [] {
      var n := |ps| - 1;
      PercentilesListed(ps[..n], samples, b);
      PercentileMeaning(ps[n], samples);
    }
  }

  lemma AllAggregates()
    ensures forall a: Aggregate :: a in AGGREGATES
    ensures forall i, j :: 0 <= i < j < |AGGREGATES| ==> AGGREGATES[i] != AGGREGATES[j]
  {
    forall a: Aggregate ensures a in AGGREGATES {
      match a
      case Min => assert AGGREGATES[0] == a;
      case Max => assert AGGREGATES[1] == a;
      case Median => assert AGGREGATES[2] == a;
      case Avg => assert AGGREGATES[3] == a;
      case Sum => assert AGGREGATES[4] == a;
      case Count => assert AGGREGATES[5] == a;
    }
  }

  lemma HistogramSummarises(hc: HistogramConfig, count: int, samples: seq<real>, b: real, interval: real)
    requires ValidConfig(hc) && interval > 0.0 && samples != [] && count != 0
    ensures Summarises(hc, HistogramPoints(hc, count, samples, b, interval), b, samples, count, interval)
  {
    hide IsAggregate, IsPercentile, SortedOf, AggregatePoints, PercentilePoints, Sorting.Sort, HistogramPoints, Summarises;
    AllAggregates();
    AggregatesListed(AGGREGATES, hc.aggregates, samples, count, b, interval);
    PercentilesListed(hc.percentiles, samples, b);
    PointsSplit(hc, count, samples, b, interval);
    var first := AggregatePoints(AGGREGATES, hc.aggregates, SortedOf(samples), count, b, interval);
    assert forall i :: 0 <= i < |first| ==> first[i] in first;
    JoinSummary(hc, first, PercentilePoints(hc.percentiles, SortedOf(samples), b), b, samples, count, interval);
  }

  lemma JoinSummary(hc: HistogramConfig, first: seq<Point>, second: seq<Point>, b: real, samples: seq<real>, count: int, interval: real)
    requires |second| == |hc.percentiles|
    requires forall i :: 0 <= i < |first| ==> first[i].timestamp == b && Names(hc, first[i], samples, count, interval)
    requires forall i, j :: 0 <= i < j < |first| ==> first[i].suffix != first[j].suffix
    requires forall a :: a in hc.aggregates ==> exists i :: 0 <= i < |first| && first[i].suffix == Aggregated(a)
    requires forall i :: 0 <= i < |second| ==>
      && second[i].timestamp == b && second[i].suffix == Percentile(Truncate(hc.percentiles[i] * 100.0))
      && IsPercentile(hc.percentiles[i], samples, second[i].value)
    ensures Summarises(hc, first + second, b, samples, count, interval)
  {
    hide Names, IsPercentile, Truncate;
    var points := first + second;
    assert forall i :: 0 <= i < |first| ==> points[i] == first[i];
    assert forall i :: 0 <= i < |second| ==> points[|first| + i] == second[i];
    forall a | a in hc.aggregates ensures exists i :: 0 <= i < |first| && points[i].suffix == Aggregated(a) {
      var i :| 0 <= i < |first| && first[i].suffix == Aggregated(a);
      assert points[i].suffix == Aggregated(a);
    }
  }

  lemma PointsSplit(hc: HistogramConfig, count: int, samples: seq<real>, b: real, interval: real)
    requires ValidConfig(hc) && interval > 0.0 && samples != [] && count != 0
    ensures HistogramPoints(hc, count, samples, b, interval) ==
            AggregatePoints(AGGREGATES, hc.aggregates, SortedOf(samples), count, b, interval)
            + PercentilePoints(hc.percentiles, SortedOf(samples), b)
  {
    hide AggregatePoints, PercentilePoints, Sorting.Sort;
  }

  /** A histogram reports, for each completed bucket, the configured aggregates and
      percentiles of the values of its points with a rate, under their names, and nothing
      else; nothing at all when the total weight is zero. */
  lemma HistogramReports(cfg: Config, events: seq<Event>, n: nat, b: real)
    requires n < |events| && events[n].Flushed? && AllMine(events, HistogramType)
    ensures var ps := PointsOf(cfg, events, n, b);
      var points := ReportedAt(EmittedAt(cfg, events, n), b);
      if Completes(cfg, events[n].now, b, NonzeroRated(ps)) && WeightCount(ps) != 0
      then Summarises(cfg.histograms, points, b, Values(NonzeroRated(ps)), WeightCount(ps), cfg.interval)
      else points == []
  {
    hide RunFrom, ReportedAt, FlushEmission, Fold, PointsOf, AllOf, WeightCount, Values, NonzeroRated, HistogramPoints, Summarises;
    FlushReports(cfg, events, n, b, HistogramType);
    var ps := PointsOf(cfg, events, n, b);
    NothingRated();
    if ps != [] {
      FoldHistograms(ps);
      SomeSamples(NonzeroRated(ps));
      if Completes(cfg, events[n].now, b, NonzeroRated(ps)) && WeightCount(ps) != 0 {
        HistogramSummarises(cfg.histograms, WeightCount(ps), Values(NonzeroRated(ps)), b, cfg.interval);
      } else {
        NoWeight(cfg, Values(NonzeroRated(ps)), b);
      }
    }
  }

  lemma NothingRated()
    ensures NonzeroRated([]) == []
  {
  }

  lemma SomeSamples(ps: seq<Submission>)
    ensures ps != [] ==> Values(ps) != []
  {
  }

  lemma NoWeight(cfg: Config, samples: seq<real>, b: real)
    ensures HistogramPoints(cfg.histograms, 0, samples, b, cfg.interval) == []
  {
  }
}
