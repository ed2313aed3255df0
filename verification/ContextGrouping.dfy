/** The two-level dictionary is a plain grouping of the points still to be flushed. */
module ContextGrouping {
  import opened Prelude
  import opened Buckets
  import opened Metrics
  import opened ContextFlow

  function BucketFor(cfg: Config, p: Submission): real { BucketOf(cfg, p.timestamp, p.now) }

  /** The submissions of this context whose bucket lies at or after the cutoff. */
  function FromCutoff(cfg: Config, ps: seq<Submission>, cutoff: real): seq<Submission>
    decreases |ps|
  {
    if ps == [] then []
    else
      var n := |ps| - 1;
      FromCutoff(cfg, ps[..n], cutoff) + if BucketFor(cfg, ps[n]) >= cutoff then [ps[n]] else []
  }

  /** The points that were not too old, and whose bucket no flush has completed since: a
      list, without dictionaries or caches. */
  function PendingPoints(cfg: Config, events: seq<Event>): seq<Submission>
    decreases |events|
  {
    if events == [] then []
    else
      var n := |events| - 1;
      var before := PendingPoints(cfg, events[..n]);
      match events[n]
      case Mine(p) => if TooOld(cfg, p.timestamp, p.now) then before else before + [p]
      case Other(_, _) => before
      case Flushed(now) => FromCutoff(cfg, before, BucketStart(now, cfg.interval))
  }

  /** The points of one bucket, in order. */
  function InBucket(cfg: Config, ps: seq<Submission>, b: real): seq<Submission>
    decreases |ps|
  {
    if ps == [] then []
    else
      var n := |ps| - 1;
      InBucket(cfg, ps[..n], b) + if BucketFor(cfg, ps[n]) == b then [ps[n]] else []
  }

  /** Sampling them one after the other into one metric. */
  function Fold(ps: seq<Submission>): Option<SoundCell>
    decreases |ps|
  {
    if ps == [] then None else SampleInto(Fold(ps[..|ps| - 1]), ps[|ps| - 1])
  }

  lemma {:induction false} CutoffBuckets(cfg: Config, ps: seq<Submission>, cutoff: real, b: real)
    ensures InBucket(cfg, FromCutoff(cfg, ps, cutoff), b) == if b >= cutoff then InBucket(cfg, ps, b) else []
    decreases |ps|
  {
    if ps != [] {
      var n := |ps| - 1;
      CutoffBuckets(cfg, ps[..n], cutoff, b);
      hide BucketFor;
      var before := FromCutoff(cfg, ps[..n], cutoff);
      if BucketFor(cfg, ps[n]) >= cutoff {
        assert (before + [ps[n]])[..|before|] == before;
      } else {
        assert FromCutoff(cfg, ps, cutoff) == before;
        if b >= cutoff { assert InBucket(cfg, ps, b) == InBucket(cfg, ps[..n], b); }
      }
    }
  }

  /** After every run, the context's metric in each bucket is what folding the pending
      points of that bucket gives. */
  lemma {:induction false} GroupsPendingPoints(cfg: Config, events: seq<Event>, b: real)
    ensures Lookup(Run(cfg, events).view.mine, b) == Fold(InBucket(cfg, PendingPoints(cfg, events), b))
    decreases |events|
  {
    hide BucketStart, FlushEmission, InBucket, Fold, FromCutoff, SampleInto, TooOld, BucketFor, BucketOf, Lookup, SubmitMine, Flush;
    if events == [] {
      NothingGrouped(cfg, b);
    } else {
      var n := |events| - 1;
      GroupsPendingPoints(cfg, events[..n], b);
      var v, before := Run(cfg, events[..n]).view, PendingPoints(cfg, events[..n]);
      match events[n]
      case Mine(p) => SubmitGroups(cfg, v, before, p, b);
      case Other(_, _) =>
      case Flushed(now) =>
        CutoffBuckets(cfg, before, BucketStart(now, cfg.interval), b);
        FlushGroups(cfg, v, now, b);
    }
  }

  lemma NothingGrouped(cfg: Config, b: real)
    ensures Lookup(map[], b) == Fold(InBucket(cfg, [], b))
  {
  }

  lemma SubmitLookup(cfg: Config, v: View, p: Submission, b: real)
    ensures Lookup(SubmitMine(cfg, v, p).mine, b) ==
            if TooOld(cfg, p.timestamp, p.now) || BucketFor(cfg, p) != b then Lookup(v.mine, b)
            else SampleInto(Lookup(v.mine, b), p)
  {
    hide BucketOf, Sample, Fresh, TooOld;
  }

  lemma FoldSnoc(cfg: Config, before: seq<Submission>, p: Submission, b: real)
    ensures Fold(InBucket(cfg, before + [p], b)) ==
            if BucketFor(cfg, p) != b then Fold(InBucket(cfg, before, b))
            else SampleInto(Fold(InBucket(cfg, before, b)), p)
  {
    hide BucketFor, SampleInto;
    assert (before + [p])[..|before|] == before;
    var here := InBucket(cfg, before, b);
    assert (here + [p])[..|here|] == here && here + [] == here;
  }

  lemma SubmitGroups(cfg: Config, v: View, before: seq<Submission>, p: Submission, b: real)
    requires Lookup(v.mine, b) == Fold(InBucket(cfg, before, b))
    ensures var after := if TooOld(cfg, p.timestamp, p.now) then before else before + [p];
      Lookup(SubmitMine(cfg, v, p).mine, b) == Fold(InBucket(cfg, after, b))
  {
    hide *;
    SubmitLookup(cfg, v, p, b);
    FoldSnoc(cfg, before, p, b);
  }

  lemma FlushGroups(cfg: Config, v: View, now: real, b: real)
    ensures Lookup(Flush(cfg, v, now).mine, b) == if b >= BucketStart(now, cfg.interval) then Lookup(v.mine, b) else None
    ensures Fold([]) == None
  {
    hide BucketStart, FlushEmission;
  }

  // ---------- what folding means, metric by metric ----------

  function WeightedSum(ps: seq<Submission>): real
    decreases |ps|
  {
    if ps == [] then 0.0
    else
      var n := |ps| - 1;
      WeightedSum(ps[..n]) + if ps[n].rate == 0.0 then 0.0 else ps[n].value * Weight(ps[n].rate) as real
  }

  function WeightCount(ps: seq<Submission>): int
    decreases |ps|
  {
    if ps == [] then 0
    else
      var n := |ps| - 1;
      WeightCount(ps[..n]) + if ps[n].rate == 0.0 then 0 else Weight(ps[n].rate)
  }

  function Values(ps: seq<Submission>): seq<real>
    decreases |ps|
  {
    if ps == [] then [] else Values(ps[..|ps| - 1]) + [ps[|ps| - 1].value]
  }

  function NonzeroRated(ps: seq<Submission>): seq<Submission>
    decreases |ps|
  {
    if ps == [] then []
    else NonzeroRated(ps[..|ps| - 1]) + if ps[|ps| - 1].rate == 0.0 then [] else [ps[|ps| - 1]]
  }

  ghost predicate AllOf(ps: seq<Submission>, mtype: MetricType) {
    forall i :: 0 <= i < |ps| ==> ps[i].mtype == mtype
  }

  lemma AllOfPrefix(ps: seq<Submission>, mtype: MetricType)
    requires ps != [] && AllOf(ps, mtype)
    ensures AllOf(ps[..|ps| - 1], mtype) && ps[|ps| - 1].mtype == mtype
  {
  }

  lemma {:induction false} FoldCounters(ps: seq<Submission>)
    requires ps != [] && AllOf(ps, CounterType)
    ensures Fold(ps).Some? && Fold(ps).value.metric == CounterMetric(WeightedSum(ps))
    decreases |ps|
  {
    hide AllOf, Weight;
    var n := |ps| - 1;
    AllOfPrefix(ps, CounterType);
    if n > 0 { FoldCounters(ps[..n]); }
  }

  lemma FoldGauges(ps: seq<Submission>)
    requires ps != [] && AllOf(ps, GaugeType)
    ensures Fold(ps).Some? && Fold(ps).value.metric == GaugeMetric(Some(ps[|ps| - 1].value))
    decreases |ps|
  {
    hide AllOf;
    var n := |ps| - 1;
    AllOfPrefix(ps, GaugeType);
    if n > 0 { FoldGauges(ps[..n]); }
  }

  lemma {:induction false} FoldSets(ps: seq<Submission>)
    requires ps != [] && AllOf(ps, SetType)
    ensures Fold(ps).Some? && Fold(ps).value.metric == SetMetric(set v | v in Values(ps))
    decreases |ps|
  {
    hide AllOf;
    var n := |ps| - 1;
    AllOfPrefix(ps, SetType);
    if n > 0 { FoldSets(ps[..n]); }
    assert (set v | v in Values(ps)) == (set v | v in Values(ps[..n])) + {ps[n].value};
  }

  lemma HistogramStep(cell: Option<SoundCell>, p: Submission, count: int, xs: seq<real>)
    requires p.mtype == HistogramType
    requires if cell.None? then count == 0 && xs == [] else cell.value.metric == HistogramMetric(count, xs)
    ensures SampleInto(cell, p).Some?
    ensures SampleInto(cell, p).value.metric ==
            if p.rate == 0.0 then HistogramMetric(count, xs) else HistogramMetric(count + Weight(p.rate), xs + [p.value])
  {
    hide Weight;
  }

  lemma ValuesSnoc(ps: seq<Submission>, p: Submission)
    ensures Values(ps + [p]) == Values(ps) + [p.value]
  {
    assert (ps + [p])[..|ps|] == ps;
  }

  lemma {:induction false} FoldHistograms(ps: seq<Submission>)
    requires ps != [] && AllOf(ps, HistogramType)
    ensures Fold(ps).Some? && Fold(ps).value.metric == HistogramMetric(WeightCount(ps), Values(NonzeroRated(ps)))
    decreases |ps|
  {
    hide AllOf, Weight, SampleInto, Values;
    var n := |ps| - 1;
    AllOfPrefix(ps, HistogramType);
    if n > 0 { FoldHistograms(ps[..n]); }
    var kept := NonzeroRated(ps[..n]);
    assert kept + [] == kept;
    ValuesSnoc(kept, ps[n]);
    NoValues();
    HistogramStep(Fold(ps[..n]), ps[n], WeightCount(ps[..n]), Values(kept));
  }

  lemma NoValues()
    ensures Values([]) == []
  {
  }

  /** A counter totals value times weight, a gauge keeps the latest value, a set the
      distinct values, a histogram every value in order and the total weight. */
  lemma FoldMeaning(ps: seq<Submission>)
    requires ps != []
    ensures AllOf(ps, CounterType) ==> Fold(ps).Some? && Fold(ps).value.metric == CounterMetric(WeightedSum(ps))
    ensures AllOf(ps, GaugeType) ==> Fold(ps).Some? && Fold(ps).value.metric == GaugeMetric(Some(ps[|ps| - 1].value))
    ensures AllOf(ps, SetType) ==> Fold(ps).Some? && Fold(ps).value.metric == SetMetric(set v | v in Values(ps))
    ensures AllOf(ps, HistogramType) ==>
              Fold(ps).Some? && Fold(ps).value.metric == HistogramMetric(WeightCount(ps), Values(NonzeroRated(ps)))
  {
    hide *;
    if AllOf(ps, CounterType) { FoldCounters(ps); }
    if AllOf(ps, GaugeType) { FoldGauges(ps); }
    if AllOf(ps, SetType) { FoldSets(ps); }
    if AllOf(ps, HistogramType) { FoldHistograms(ps); }
  }

  // ---------- points that leave no sample time ----------

  /** Sampling these divides by the rate, so that a zero rate raises. */
  predicate Divides(mtype: MetricType) { mtype.CounterType? || mtype.HistogramType? }

  /** The first point of a known type creates the metric. */
  ghost predicate Creates(ps: seq<Submission>, i: int) {
    0 <= i < |ps| && !ps[i].mtype.UnknownType? && forall j :: 0 <= j < i ==> ps[j].mtype.UnknownType?
  }

  /** A counter or histogram was created, but every point for it had a zero rate. */
  ghost predicate NeverSampled(ps: seq<Submission>) {
    exists i :: Creates(ps, i) && Divides(ps[i].mtype) && AllZeroFrom(ps, i)
  }

  ghost predicate AllZeroFrom(ps: seq<Submission>, i: int) {
    forall j :: 0 <= i <= j < |ps| ==> ps[j].rate == 0.0
  }

  predicate DividesCell(cell: SoundCell) { cell.metric.CounterMetric? || cell.metric.HistogramMetric? }

  lemma {:induction false} NoneCreates(ps: seq<Submission>)
    requires forall j :: 0 <= j < |ps| ==> ps[j].mtype.UnknownType?
    ensures Fold(ps) == None
    decreases |ps|
  {
    if ps != [] { NoneCreates(ps[..|ps| - 1]); }
  }

  lemma {:induction false} SomeCreates(ps: seq<Submission>) returns (i: int)
    requires exists j :: 0 <= j < |ps| && !ps[j].mtype.UnknownType?
    ensures Creates(ps, i)
    decreases |ps|
  {
    var n := |ps| - 1;
    if j :| 0 <= j < n && !ps[j].mtype.UnknownType? {
      assert !ps[..n][j].mtype.UnknownType?;
      i := SomeCreates(ps[..n]);
      assert forall k :: 0 <= k < n ==> ps[..n][k] == ps[k];
    } else {
      i := n;
    }
  }

  /** One more point for an existing metric. */
  lemma SampleAgain(cell: SoundCell, p: Submission)
    ensures var r := SampleInto(Some(cell), p);
      && r.Some? && (DividesCell(r.value) <==> DividesCell(cell))
      && r.value.sampledAt == if DividesCell(cell) && p.rate == 0.0 then cell.sampledAt else Some(p.sampledAt)
  {
    hide Weight;
  }

  lemma SampleFirst(p: Submission)
    requires !p.mtype.UnknownType?
    ensures var r := SampleInto(None, p);
      && r.Some? && (DividesCell(r.value) <==> Divides(p.mtype))
      && r.value.sampledAt == if Divides(p.mtype) && p.rate == 0.0 then None else Some(p.sampledAt)
  {
    hide Weight;
  }

  lemma {:induction false} FoldFrom(ps: seq<Submission>, i: int)
    requires Creates(ps, i)
    ensures var r := Fold(ps);
      && r.Some? && (DividesCell(r.value) <==> Divides(ps[i].mtype))
      && (r.value.sampledAt.None? <==> Divides(ps[i].mtype) && AllZeroFrom(ps, i))
    decreases |ps|
  {
    hide SampleInto, DividesCell, Divides;
    var n := |ps| - 1;
    assert forall k :: 0 <= k < n ==> ps[..n][k] == ps[k];
    if i == n {
      NoneCreates(ps[..n]);
      SampleFirst(ps[n]);
    } else {
      FoldFrom(ps[..n], i);
      SampleAgain(Fold(ps[..n]).value, ps[n]);
    }
  }

  /** A fold has a metric without sample time exactly when its points never sampled it. */
  lemma FoldUnsampledIff(ps: seq<Submission>)
    ensures Fold(ps).Some? && Fold(ps).value.sampledAt.None? <==> NeverSampled(ps)
  {
    hide Fold, Divides, AllZeroFrom;
    if forall j :: 0 <= j < |ps| ==> ps[j].mtype.UnknownType? {
      NoneCreates(ps);
    } else {
      var i := SomeCreates(ps);
      FoldFrom(ps, i);
      forall k | Creates(ps, k) ensures k == i {
        assert !ps[k].mtype.UnknownType? && !ps[i].mtype.UnknownType?;
      }
    }
  }

  /** After every run, a bucket's metric lacks a sample time exactly when the pending
      points of that bucket never sampled it. */
  lemma UnsampledIff(cfg: Config, events: seq<Event>, b: real)
    ensures var mine := Run(cfg, events).view.mine;
      b in mine && mine[b].sampledAt.None? <==> NeverSampled(InBucket(cfg, PendingPoints(cfg, events), b))
  {
    hide Fold, NeverSampled, InBucket, PendingPoints, RunFrom;
    GroupsPendingPoints(cfg, events, b);
    FoldUnsampledIff(InBucket(cfg, PendingPoints(cfg, events), b));
  }
}
