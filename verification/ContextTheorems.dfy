/** What the aggregator guarantees for one context over every run. */
module ContextTheorems {
  import opened Prelude
  import opened Buckets
  import opened Metrics
  import opened ContextFlow

  // ---------- well-timed runs ----------

  function FirstReading(e: Event): real {
    match e
    case Mine(p) => p.now
    case Other(_, now) => now
    case Flushed(now) => now
  }

  function LastReading(e: Event): real {
    if e.Mine? then e.point.sampledAt else FirstReading(e)
  }

  /** The latest clock reading of a run that began at `start`. */
  function Clock(events: seq<Event>, start: real): real {
    if events == [] then start else LastReading(events[|events| - 1])
  }

  /** The clock never runs backwards. */
  ghost predicate WellTimed(events: seq<Event>, start: real)
    decreases |events|
  {
    events == [] ||
    (var n := |events| - 1;
     WellTimed(events[..n], start) && Clock(events[..n], start) <= FirstReading(events[n]) <= LastReading(events[n]))
  }

  predicate Untimestamped(e: Event) {
    match e
    case Mine(p) => p.timestamp.None?
    case Other(timestamp, _) => timestamp.None?
    case Flushed(_) => true
  }

  ghost predicate AllUntimestamped(events: seq<Event>) {
    forall i :: 0 <= i < |events| ==> Untimestamped(events[i])
  }

  ghost predicate AllCounters(events: seq<Event>) {
    forall i :: 0 <= i < |events| && events[i].Mine? ==> events[i].point.mtype.CounterType?
  }

  /** Only gauges and sets are submitted. */
  ghost predicate AllSingle(events: seq<Event>) {
    forall i :: 0 <= i < |events| && events[i].Mine? ==> events[i].point.mtype.GaugeType? || events[i].point.mtype.SetType?
  }

  ghost predicate CounterCells(mine: map<real, SoundCell>) {
    forall b :: b in mine ==> mine[b].metric.CounterMetric?
  }

  predicate Single(cell: SoundCell) { cell.metric.GaugeMetric? || cell.metric.SetMetric? }

  ghost predicate SingleCells(mine: map<real, SoundCell>) {
    forall b :: b in mine ==> Single(mine[b])
  }

  /** A bucket of this context emits one point at most: it holds only counters, or only
      gauges and sets and has never recorded a counter. */
  ghost predicate OnePointEach(counters: bool, mine: map<real, SoundCell>, last: Option<real>) {
    if counters then CounterCells(mine) else SingleCells(mine) && last.None?
  }

  // ---------- what is accepted, and where it goes ----------

  /** A point is discarded exactly when it has a timestamp whose whole second lies more than
      the threshold before now. */
  lemma DiscardedIff(cfg: Config, t: real, now: real)
    ensures !TooOld(cfg, None, now)
    ensures t >= 0.0 ==> (TooOld(cfg, Some(t), now) <==> t.Floor as real < now - cfg.recentPointThreshold as real)
  {
  }

  /** A point goes into the bucket around its timestamp, or around now when it has none or
      a zero. */
  lemma BucketHolds(cfg: Config, timestamp: Option<real>, now: real)
    ensures var b := BucketOf(cfg, timestamp, now);
      var t := if timestamp.None? || timestamp == Some(0.0) then now else timestamp.value;
      IsBucket(b, cfg.interval) && b <= t < b + cfg.interval
  {
    BucketBounds(EffectiveTime(timestamp, now), cfg.interval);
    hide BucketStart;
  }

  // ---------- timestamps ----------

  lemma {:induction false} AggregateStamps(order: seq<Aggregate>, wanted: seq<Aggregate>, sorted: seq<real>,
        count: int, ts: real, interval: real)
    requires sorted != [] && interval > 0.0
    ensures forall p :: p in AggregatePoints(order, wanted, sorted, count, ts, interval) ==> p.timestamp == ts
    decreases |order|
  {
    if order != [] { AggregateStamps(order[..|order| - 1], wanted, sorted, count, ts, interval); }
  }

  lemma {:induction false} PercentileStamps(ps: seq<real>, sorted: seq<real>, ts: real)
    requires sorted != [] && forall i :: 0 <= i < |ps| ==> 0.0 <= ps[i] < 1.0
    ensures forall p :: p in PercentilePoints(ps, sorted, ts) ==> p.timestamp == ts
    decreases |ps|
  {
    if ps != [] { PercentileStamps(ps[..|ps| - 1], sorted, ts); }
  }

  lemma FlushStamps(cfg: Config, cell: SoundCell, ts: real)
    ensures forall p :: p in FlushPoints(cfg.histograms, cell, ts, cfg.interval) ==> p.timestamp == ts
    ensures cell.metric.CounterMetric? ==> |FlushPoints(cfg.histograms, cell, ts, cfg.interval)| == 1
    ensures Single(cell) ==> |FlushPoints(cfg.histograms, cell, ts, cfg.interval)| <= 1
  {
    if cell.metric.HistogramMetric? && cell.metric.count != 0 {
      Sorting.SortPermutes(cell.metric.samples, RealLe);
      var sorted := Sorting.Sort(cell.metric.samples, RealLe);
      AggregateStamps(AGGREGATES, cfg.histograms.aggregates, sorted, cell.metric.count, ts, cfg.interval);
      PercentileStamps(cfg.histograms.percentiles, sorted, ts);
      hide AggregatePoints, PercentilePoints, Sorting.Sort;
    }
  }

  /** One completed bucket emits at its own start; at most once unless for a histogram. */
  lemma CloseStamps(cfg: Config, cell: Option<SoundCell>, last: Option<real>, b: real, expiry: real)
    ensures forall p :: p in CloseBucket(cfg, cell, last, b, expiry).points ==> p.timestamp == b
    ensures (cell.Some? ==> cell.value.metric.CounterMetric?) ==> |CloseBucket(cfg, cell, last, b, expiry).points| <= 1
    ensures (cell.Some? ==> Single(cell.value)) && last.None? ==>
      |CloseBucket(cfg, cell, last, b, expiry).points| <= 1 && CloseBucket(cfg, cell, last, b, expiry).last.None?
  {
    if cell.Some? { FlushStamps(cfg, cell.value, b); }
    hide FlushPoints;
  }

  ghost predicate Nondecreasing(points: seq<Point>) {
    forall i, j :: 0 <= i < j < |points| ==> points[i].timestamp <= points[j].timestamp
  }

  ghost predicate Increasing(points: seq<Point>) {
    forall i, j :: 0 <= i < j < |points| ==> points[i].timestamp < points[j].timestamp
  }

  /** All stamps are buckets in [from, to). */
  ghost predicate Stamped(cfg: Config, points: seq<Point>, from: real, to: real) {
    forall p :: p in points ==> IsBucket(p.timestamp, cfg.interval) && from <= p.timestamp < to
  }

  lemma JoinStamps(cfg: Config, a: seq<Point>, b: seq<Point>, from: real, mid: real, to: real)
    requires Stamped(cfg, a, from, mid) && Stamped(cfg, b, mid, to) && from <= mid <= to
    ensures Stamped(cfg, a + b, from, to)
    ensures Nondecreasing(a) && Nondecreasing(b) ==> Nondecreasing(a + b)
    ensures Increasing(a) && Increasing(b) ==> Increasing(a + b)
  {
    assert forall i :: 0 <= i < |a| ==> a[i] in a && a[i].timestamp < mid;
    assert forall i :: 0 <= i < |b| ==> b[i] in b && mid <= b[i].timestamp;
  }

  lemma {:induction false} CloseAllStamps(cfg: Config, mine: map<real, SoundCell>, last: Option<real>,
        bs: seq<real>, cutoff: real, expiry: real, from: real)
    requires StrictlyAscending(bs) && from <= cutoff
    requires forall i :: 0 <= i < |bs| ==> IsBucket(bs[i], cfg.interval) && from <= bs[i]
    ensures var ps := CloseBuckets(cfg, mine, last, bs, cutoff, expiry).points;
      && Stamped(cfg, ps, from, cutoff)
      && (forall p :: p in ps ==> bs != [] && p.timestamp <= bs[|bs| - 1])
      && Nondecreasing(ps)
      && (forall counters :: OnePointEach(counters, mine, last) ==>
            Increasing(ps) && OnePointEach(counters, mine, CloseBuckets(cfg, mine, last, bs, cutoff, expiry).last))
    decreases |bs|
  {
    hide CloseBucket, Stamped, Nondecreasing, Increasing, IsBucket;
    if bs == [] {
      NoStamps(cfg, from, cutoff);
    } else {
      var n := |bs| - 1;
      CloseAllStamps(cfg, mine, last, bs[..n], cutoff, expiry, from);
      var before := CloseBuckets(cfg, mine, last, bs[..n], cutoff, expiry);
      if bs[n] < cutoff {
        CloseStamps(cfg, Lookup(mine, bs[n]), before.last, bs[n], expiry);
        AddStamps(cfg, before.points, CloseBucket(cfg, Lookup(mine, bs[n]), before.last, bs[n], expiry).points, from, bs[n], cutoff);
      }
    }
  }

  lemma NoStamps(cfg: Config, from: real, cutoff: real)
    ensures Stamped(cfg, [], from, cutoff) && Nondecreasing([]) && Increasing([])
  {
  }

  /** Later points with one common stamp. */
  lemma AddStamps(cfg: Config, before: seq<Point>, more: seq<Point>, from: real, b: real, cutoff: real)
    requires Stamped(cfg, before, from, cutoff) && IsBucket(b, cfg.interval) && from <= b < cutoff
    requires (forall p :: p in before ==> p.timestamp < b) && (forall p :: p in more ==> p.timestamp == b)
    ensures Stamped(cfg, before + more, from, cutoff) && (forall p :: p in before + more ==> p.timestamp <= b)
    ensures Nondecreasing(before) ==> Nondecreasing(before + more)
    ensures Increasing(before) && |more| <= 1 ==> Increasing(before + more)
  {
    hide IsBucket;
    assert forall i :: 0 <= i < |before| ==> before[i] in before;
    assert forall i :: 0 <= i < |more| ==> more[i] in more;
  }

  /** Where the buckets and the emitted points lie. */
  ghost predicate Placed(cfg: Config, r: Outcome, clock: real) {
    var v := r.view;
    && IsBucket(v.cutoff, cfg.interval) && 0.0 <= v.cutoff <= BucketStart(clock, cfg.interval)
    && (forall b :: b in v.buckets ==> IsBucket(b, cfg.interval) && v.cutoff <= b)
    && v.mine.Keys <= v.buckets
    && Stamped(cfg, r.points, 0.0, v.cutoff)
    && Nondecreasing(r.points)
  }

  lemma FlushPlaces(cfg: Config, r: Outcome, clock: real, now: real)
    requires Placed(cfg, r, clock) && clock <= now
    ensures Placed(cfg, Outcome(Flush(cfg, r.view, now), r.points + FlushEmission(cfg, r.view, now).points), now)
    ensures forall counters :: Increasing(r.points) && OnePointEach(counters, r.view.mine, r.view.last) ==>
      && Increasing(r.points + FlushEmission(cfg, r.view, now).points)
      && OnePointEach(counters, Flush(cfg, r.view, now).mine, Flush(cfg, r.view, now).last)
    ensures Stamped(cfg, FlushEmission(cfg, r.view, now).points, r.view.cutoff, BucketStart(now, cfg.interval))
  {
    hide CloseBuckets, BucketStart, IsBucket, Stamped, Nondecreasing, Increasing, OnePointEach, RemainingCells, CreateEmpty;
    var v := r.view;
    var cutoff := BucketStart(now, cfg.interval);
    BucketBounds(now, cfg.interval);
    BucketMonotone(clock, now, cfg.interval);
    EmissionStamps(cfg, v, now);
    JoinStamps(cfg, r.points, FlushEmission(cfg, v, now).points, 0.0, v.cutoff, cutoff);
    forall counters | OnePointEach(counters, v.mine, v.last)
      ensures OnePointEach(counters, Flush(cfg, v, now).mine, Flush(cfg, v, now).last)
    {
      FewerCells(counters, v.mine, cutoff, FlushEmission(cfg, v, now).last);
    }
    RemainingKeys(v.mine, v.buckets, cutoff);
  }

  lemma RemainingKeys(mine: map<real, SoundCell>, buckets: set<real>, cutoff: real)
    requires mine.Keys <= buckets
    ensures RemainingCells(mine, cutoff).Keys <= Remaining(buckets, cutoff)
  {
    forall b | b in RemainingCells(mine, cutoff) ensures b in Remaining(buckets, cutoff) {
      assert b in mine.Keys;
    }
  }

  lemma FewerCells(counters: bool, mine: map<real, SoundCell>, cutoff: real, last: Option<real>)
    requires OnePointEach(counters, mine, last)
    ensures OnePointEach(counters, RemainingCells(mine, cutoff), last)
  {
  }

  /** The points of one flush lie from the cutoff of the previous flush up to its own. */
  lemma EmissionStamps(cfg: Config, v: View, now: real)
    requires IsBucket(v.cutoff, cfg.interval) && v.cutoff <= BucketStart(now, cfg.interval)
    requires forall b :: b in v.buckets ==> IsBucket(b, cfg.interval) && v.cutoff <= b
    ensures var r := FlushEmission(cfg, v, now);
      && Stamped(cfg, r.points, v.cutoff, BucketStart(now, cfg.interval)) && Nondecreasing(r.points)
      && (forall counters :: OnePointEach(counters, v.mine, v.last) ==>
            Increasing(r.points) && OnePointEach(counters, v.mine, r.last))
  {
    hide CloseBuckets, BucketStart, IsBucket;
    var cutoff, expiry := BucketStart(now, cfg.interval), now - cfg.expirySeconds;
    BucketBounds(now, cfg.interval);
    if v.buckets != {} {
      var bs := Sorted(v.buckets);
      assert forall i :: 0 <= i < |bs| ==> bs[i] in bs;
      CloseAllStamps(cfg, v.mine, v.last, bs, cutoff, expiry, v.cutoff);
    } else if cutoff >= v.cutoff + cfg.interval {
      PreviousBucket(cutoff, cfg.interval);
    }
  }

  lemma LaterPlaces(cfg: Config, r: Outcome, clock: real, now: real)
    requires Placed(cfg, r, clock) && clock <= now
    ensures Placed(cfg, r, now)
  {
    BucketMonotone(clock, now, cfg.interval);
  }

  lemma InitialPlaced(cfg: Config, start: real)
    requires start >= 0.0
    ensures Placed(cfg, Outcome(Initial(), []), start)
  {
    BucketOfNonnegative(start, cfg.interval);
    TimesZero(cfg.interval);
    assert 0.0 == Multiple(0, cfg.interval);
  }

  lemma SampleKeepsCounter(cell: Option<SoundCell>, p: Submission)
    requires p.mtype.CounterType? && (cell.Some? ==> cell.value.metric.CounterMetric?)
    ensures SampleInto(cell, p).Some? && SampleInto(cell, p).value.metric.CounterMetric?
  {
  }

  lemma SampleKeepsSingle(cell: Option<SoundCell>, p: Submission)
    requires (p.mtype.GaugeType? || p.mtype.SetType?) && (cell.Some? ==> Single(cell.value))
    ensures SampleInto(cell, p).Some? && Single(SampleInto(cell, p).value)
  {
  }

  lemma SubmitKeepsKind(cfg: Config, v: View, p: Submission)
    ensures p.mtype.CounterType? && OnePointEach(true, v.mine, v.last) ==>
      OnePointEach(true, SubmitMine(cfg, v, p).mine, SubmitMine(cfg, v, p).last)
    ensures (p.mtype.GaugeType? || p.mtype.SetType?) && OnePointEach(false, v.mine, v.last) ==>
      OnePointEach(false, SubmitMine(cfg, v, p).mine, SubmitMine(cfg, v, p).last)
  {
    hide BucketOf, TooOld, SampleInto, Single;
    var cell := Lookup(v.mine, BucketOf(cfg, p.timestamp, p.now));
    if p.mtype.CounterType? && (cell.Some? ==> cell.value.metric.CounterMetric?) { SampleKeepsCounter(cell, p); }
    if (p.mtype.GaugeType? || p.mtype.SetType?) && (cell.Some? ==> Single(cell.value)) { SampleKeepsSingle(cell, p); }
  }

  /** The cutoff of the latest flush. */
  function Cutoff(cfg: Config, events: seq<Event>): real
    decreases |events|
  {
    if events == [] then 0.0
    else
      var n := |events| - 1;
      if events[n].Flushed? then BucketStart(events[n].now, cfg.interval) else Cutoff(cfg, events[..n])
  }

  /** A submission does not fall in a bucket that has been flushed already. */
  predicate InTime(cfg: Config, cutoff: real, e: Event) {
    match e
    case Mine(p) => TooOld(cfg, p.timestamp, p.now) || cutoff <= BucketOf(cfg, p.timestamp, p.now)
    case Other(timestamp, now) => TooOld(cfg, timestamp, now) || cutoff <= BucketOf(cfg, timestamp, now)
    case Flushed(_) => true
  }

  ghost predicate AllInTime(cfg: Config, events: seq<Event>)
    decreases |events|
  {
    events == [] ||
    (var n := |events| - 1; AllInTime(cfg, events[..n]) && InTime(cfg, Cutoff(cfg, events[..n]), events[n]))
  }

  /** Points without a timestamp are always in time. */
  lemma {:induction false} UntimestampedIsInTime(cfg: Config, events: seq<Event>, start: real)
    requires WellTimed(events, start) && start >= 0.0 && AllUntimestamped(events)
    ensures AllInTime(cfg, events) && Cutoff(cfg, events) <= BucketStart(Clock(events, start), cfg.interval)
    decreases |events|
  {
    if events == [] {
      BucketOfNonnegative(start, cfg.interval);
    } else {
      var n := |events| - 1;
      assert forall i :: 0 <= i < n ==> events[..n][i] == events[i];
      UntimestampedIsInTime(cfg, events[..n], start);
      assert Untimestamped(events[n]);
      BucketMonotone(Clock(events[..n], start), FirstReading(events[n]), cfg.interval);
      BucketMonotone(FirstReading(events[n]), LastReading(events[n]), cfg.interval);
      hide BucketStart;
    }
  }

  /** Over every well-timed run whose points fall in no flushed bucket: the timestamps
      emitted for a context never fall, are multiples of the interval, and lie below the
      cutoff of the flush; counters, zero-filled or not, and gauges and sets never repeat one. */
  lemma {:induction false} TimestampsAscend(cfg: Config, events: seq<Event>, start: real)
    requires WellTimed(events, start) && start >= 0.0 && AllInTime(cfg, events)
    ensures Placed(cfg, Run(cfg, events), Clock(events, start)) && Run(cfg, events).view.cutoff == Cutoff(cfg, events)
    ensures AllCounters(events) ==> Increasing(Run(cfg, events).points) && CounterCells(Run(cfg, events).view.mine)
    ensures AllSingle(events) ==>
      Increasing(Run(cfg, events).points) && SingleCells(Run(cfg, events).view.mine) && Run(cfg, events).view.last.None?
    decreases |events|
  {
    hide Placed, Increasing, CounterCells, SingleCells, SubmitMine, SubmitOther, Flush, FlushEmission, BucketStart, TooOld, BucketOf;
    KindsOf(true, Run(cfg, events).view);
    KindsOf(false, Run(cfg, events).view);
    if events == [] {
      InitialPlaced(cfg, start);
      NothingYet();
    } else {
      var n := |events| - 1;
      var before, clock := Run(cfg, events[..n]), Clock(events[..n], start);
      assert forall i :: 0 <= i < n ==> events[..n][i] == events[i];
      TimestampsAscend(cfg, events[..n], start);
      KindsOf(true, before.view);
      KindsOf(false, before.view);
      match events[n]
      case Flushed(now) =>
        FlushPlaces(cfg, before, clock, now);
        FlushCuts(cfg, before.view, now);
      case Other(timestamp, now) =>
        OtherPlaces(cfg, before, clock, timestamp, now);
      case Mine(p) =>
        MinePlaces(cfg, before, clock, p);
        SubmitKeepsKind(cfg, before.view, p);
    }
  }

  lemma KindsOf(counters: bool, v: View)
    ensures OnePointEach(counters, v.mine, v.last) <==> if counters then CounterCells(v.mine) else SingleCells(v.mine) && v.last.None?
  {
  }

  lemma NothingYet()
    ensures Increasing([]) && CounterCells(map[]) && SingleCells(map[])
  {
  }

  lemma FlushCuts(cfg: Config, v: View, now: real)
    ensures Flush(cfg, v, now).cutoff == BucketStart(now, cfg.interval)
  {
  }

  lemma OtherPlaces(cfg: Config, r: Outcome, clock: real, timestamp: Option<real>, now: real)
    requires Placed(cfg, r, clock) && clock <= now && InTime(cfg, r.view.cutoff, Other(timestamp, now))
    ensures var v := SubmitOther(cfg, r.view, timestamp, now);
      && Placed(cfg, r.(view := v), now) && v.cutoff == r.view.cutoff && v.mine == r.view.mine && v.last == r.view.last
  {
    hide Placed, BucketOf, TooOld;
    if !TooOld(cfg, timestamp, now) {
      KeysOnly(r.view.mine, BucketOf(cfg, timestamp, now));
      OpenPlaces(cfg, r, clock, timestamp, now, r.view.mine);
    }
    LaterPlaces(cfg, r.(view := SubmitOther(cfg, r.view, timestamp, now)), clock, now);
  }

  lemma KeysOnly(mine: map<real, SoundCell>, b: real)
    ensures mine.Keys <= mine.Keys + {b}
  {
  }

  lemma MinePlaces(cfg: Config, r: Outcome, clock: real, p: Submission)
    requires Placed(cfg, r, clock) && clock <= p.now <= p.sampledAt && InTime(cfg, r.view.cutoff, Mine(p))
    ensures var v := SubmitMine(cfg, r.view, p);
      && Placed(cfg, r.(view := v), p.sampledAt) && v.cutoff == r.view.cutoff
  {
    hide Placed, BucketOf, TooOld, SampleInto;
    if !TooOld(cfg, p.timestamp, p.now) {
      OpenPlaces(cfg, r, clock, p.timestamp, p.now, SubmitMine(cfg, r.view, p).mine);
    }
    LaterPlaces(cfg, r.(view := SubmitMine(cfg, r.view, p)), clock, p.sampledAt);
  }

  // ---------- flush after flush ----------

  /** What the n-th event of a run emits, being a flush. */
  ghost function EmittedAt(cfg: Config, events: seq<Event>, n: nat): seq<Point>
    requires n < |events| && events[n].Flushed?
  {
    FlushEmission(cfg, Run(cfg, events[..n]).view, events[n].now).points
  }

  lemma {:induction false} PrefixOfRun(cfg: Config, events: seq<Event>, start: real, n: nat)
    requires n <= |events| && WellTimed(events, start) && AllInTime(cfg, events)
    ensures WellTimed(events[..n], start) && AllInTime(cfg, events[..n])
    decreases |events|
  {
    if n < |events| {
      PrefixOfRun(cfg, events[..|events| - 1], start, n);
      assert events[..|events| - 1][..n] == events[..n];
    } else {
      assert events[..n] == events;
    }
  }

  /** Points once emitted are in the output of every longer run. */
  lemma {:induction false} PointsStay(cfg: Config, events: seq<Event>, i: nat, p: Point)
    requires i < |events| && events[i].Flushed? && p in EmittedAt(cfg, events, i)
    ensures p in Run(cfg, events).points
    decreases |events|
  {
    hide FlushEmission, Flush, SubmitMine, SubmitOther;
    var n := |events| - 1;
    if i < n {
      assert events[..n][..i] == events[..i] && events[..n][i] == events[i];
      PointsStay(cfg, events[..n], i, p);
    }
  }

  /** For metrics of every type: whatever a later flush reports is strictly later than
      everything an earlier flush reported, so that no bucket is reported by two flushes. */
  lemma LaterFlushesAreLater(cfg: Config, events: seq<Event>, start: real, i: nat, j: nat, p: Point, q: Point)
    requires WellTimed(events, start) && start >= 0.0 && AllInTime(cfg, events)
    requires i < j < |events| && events[i].Flushed? && events[j].Flushed?
    requires p in EmittedAt(cfg, events, i) && q in EmittedAt(cfg, events, j)
    ensures p.timestamp < q.timestamp
  {
    hide Placed, FlushEmission, Flush, BucketStart, RunFrom, IsBucket, WellTimed, AllInTime;
    PrefixOfRun(cfg, events, start, j);
    PrefixOfRun(cfg, events, start, j + 1);
    assert events[..j + 1][..j] == events[..j] && events[..j + 1][j] == events[j];
    assert events[..j][..i] == events[..i] && events[..j][i] == events[i];
    TimestampsAscend(cfg, events[..j], start);
    PointsStay(cfg, events[..j], i, p);
    NextReading(events[..j + 1], start);
    PlacedMeans(cfg, Run(cfg, events[..j]), Clock(events[..j], start), events[j].now, p, q);
  }

  lemma NextReading(events: seq<Event>, start: real)
    requires events != [] && WellTimed(events, start) && events[|events| - 1].Flushed?
    ensures Clock(events[..|events| - 1], start) <= events[|events| - 1].now
  {
  }

  lemma PlacedMeans(cfg: Config, r: Outcome, clock: real, now: real, p: Point, q: Point)
    requires Placed(cfg, r, clock) && clock <= now && p in r.points && q in FlushEmission(cfg, r.view, now).points
    ensures p.timestamp < r.view.cutoff <= q.timestamp
  {
    hide FlushEmission, BucketStart, IsBucket;
    FlushPlaces(cfg, r, clock, now);
  }

  lemma OpenPlaces(cfg: Config, r: Outcome, clock: real, timestamp: Option<real>, now: real, mine: map<real, SoundCell>)
    requires Placed(cfg, r, clock) && r.view.cutoff <= BucketOf(cfg, timestamp, now)
    requires mine.Keys <= r.view.mine.Keys + {BucketOf(cfg, timestamp, now)}
    ensures Placed(cfg, r.(view := r.view.(buckets := r.view.buckets + {BucketOf(cfg, timestamp, now)}, mine := mine)), clock)
  {
    BucketBounds(EffectiveTime(timestamp, now), cfg.interval);
  }
}
