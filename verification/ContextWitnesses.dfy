/** Where the timestamp law stops: points for a bucket that was flushed already. */
module ContextWitnesses {
  import opened Prelude
  import opened Buckets
  import opened Metrics
  import opened ContextFlow
  import opened ContextTheorems
  import opened ContextExpiry

  /** Count once in the first bucket, flush it, count once more in it by an explicit
      timestamp, flush again. */
  function LateRun(cfg: Config): seq<Event> {
    [OneCount(1.0, None, 0.0), Flushed(cfg.interval), OneCount(1.0, Some(Half(cfg.interval)), cfg.interval), Flushed(cfg.interval)]
  }

  ghost predicate Counted(cfg: Config, v: View) {
    v.buckets == {0.0} && v.mine.Keys == {0.0} && v.mine[0.0].metric == CounterMetric(1.0) &&
    v.mine[0.0].sampledAt.Some? && 0.0 <= v.mine[0.0].sampledAt.value
  }

  lemma CountOnce(cfg: Config, v: View, p: Submission)
    requires v.buckets == {} && v.mine == map[] && p.mtype == CounterType && p.value == 1.0 && p.rate == 1.0
    requires p.sampledAt >= 0.0 && !TooOld(cfg, p.timestamp, p.now)
    requires 0.0 <= EffectiveTime(p.timestamp, p.now) < cfg.interval
    ensures Counted(cfg, SubmitMine(cfg, v, p))
    ensures BucketOf(cfg, p.timestamp, p.now) == 0.0
  {
    FirstBucket(EffectiveTime(p.timestamp, p.now), cfg.interval);
    assert 0.0 + 1.0 * Weight(1.0) as real == 1.0;
    hide BucketStart;
  }

  lemma FlushCounted(cfg: Config, v: View, now: real)
    requires Counted(cfg, v) && cfg.interval <= now <= cfg.expirySeconds
    ensures FlushEmission(cfg, v, now).points == [Point(Plain, 0.0, 1.0 / cfg.interval)]
    ensures Flush(cfg, v, now).buckets == {} && Flush(cfg, v, now).mine == map[]
  {
    FirstBucket(now, cfg.interval);
    var bs := Sorted(v.buckets);
    ListsUnique(bs, [0.0], v.buckets);
    assert [0.0][..0] == [];
    CloseOneMore(cfg, v.mine, v.last, [], 0.0, BucketStart(now, cfg.interval), now - cfg.expirySeconds);
    assert [] + [0.0] == [0.0];
    hide BucketStart, Sorted, Lists;
  }

  /** Four events, the first at time zero and the others together later. */
  lemma FourTimed(es: seq<Event>, t: real)
    requires |es| == 4 && t >= 0.0 && FirstReading(es[0]) == LastReading(es[0]) == 0.0
    requires forall i :: 1 <= i < 4 ==> FirstReading(es[i]) == LastReading(es[i]) == t
    ensures WellTimed(es, 0.0)
    ensures es[..4] == es && es[..4][..3] == es[..3] && es[..3][..2] == es[..2] && es[..2][..1] == es[..1] && es[..1][..0] == []
  {
    assert es[..4] == es && es[..4][..3] == es[..3] && es[..3][..2] == es[..2] && es[..2][..1] == es[..1] && es[..1][..0] == [];
    assert Clock(es[..1], 0.0) == 0.0 && Clock(es[..2], 0.0) == t && Clock(es[..3], 0.0) == t;
    assert WellTimed(es[..1], 0.0) by { assert WellTimed(es[..1][..0], 0.0); }
    assert WellTimed(es[..2], 0.0) && WellTimed(es[..3], 0.0);
  }

  /** The late point makes the counter report its first bucket twice. */
  lemma LateTimestampRepeats(cfg: Config)
    requires cfg.interval <= cfg.expirySeconds && cfg.interval <= cfg.recentPointThreshold as real
    ensures WellTimed(LateRun(cfg), 0.0) && AllCounters(LateRun(cfg)) && !AllInTime(cfg, LateRun(cfg))
    ensures var p := Point(Plain, 0.0, 1.0 / cfg.interval); Run(cfg, LateRun(cfg)).points == [p, p]
  {
    var es := LateRun(cfg);
    FourTimed(es, cfg.interval);
    assert Run(cfg, es[..1][..0]) == Outcome(Initial(), []);
    var first, late := es[0].point, es[2].point;
    CountOnce(cfg, Initial(), first);
    var v1 := SubmitMine(cfg, Initial(), first);
    FlushCounted(cfg, v1, cfg.interval);
    var v2 := Flush(cfg, v1, cfg.interval);
    CountOnce(cfg, v2, late);
    var v3 := SubmitMine(cfg, v2, late);
    FlushCounted(cfg, v3, cfg.interval);
    hide SubmitMine, Flush, FlushEmission, Counted;
    assert Run(cfg, es[..1]) == Outcome(v1, []);
    assert Run(cfg, es[..2]) == Outcome(v2, [Point(Plain, 0.0, 1.0 / cfg.interval)]);
    assert Run(cfg, es[..3]).view == v3;
    assert Cutoff(cfg, es[..2]) == BucketStart(cfg.interval, cfg.interval);
    FirstBucket(cfg.interval, cfg.interval);
    assert !AllInTime(cfg, es[..3]);
  }

  // ---------- another context's late point ----------

  /** Count once in the first bucket, flush it; another context reopens it by an explicit
      timestamp; flush again. */
  function ReopenedRun(cfg: Config): seq<Event> {
    [OneCount(1.0, None, 0.0), Flushed(cfg.interval), Other(Some(Half(cfg.interval)), cfg.interval), Flushed(cfg.interval)]
  }

  /** The counter remembers its sample time after its bucket was flushed. */
  lemma FlushRemembers(cfg: Config, v: View, now: real)
    requires Counted(cfg, v) && cfg.interval <= now <= cfg.expirySeconds
    ensures Flush(cfg, v, now).last == v.mine[0.0].sampledAt
  {
    hide BucketStart, Sorted, Lists;
    FirstBucket(now, cfg.interval);
    var bs := Sorted(v.buckets);
    SortedOne(v.buckets, 0.0);
    CloseOneMore(cfg, v.mine, v.last, [], 0.0, BucketStart(now, cfg.interval), now - cfg.expirySeconds);
    assert [] + [0.0] == [0.0];
  }

  lemma SortedOne(buckets: set<real>, b: real)
    requires buckets == {b}
    ensures Sorted(buckets) == [b]
  {
    ListsUnique(Sorted(buckets), [b], buckets);
    assert [b][..0] == [];
  }

  lemma FlushReopened(cfg: Config, v: View, now: real)
    requires v.buckets == {0.0} && v.mine == map[] && v.last.Some? && 0.0 <= v.last.value
    requires cfg.interval <= now <= cfg.expirySeconds
    ensures FlushEmission(cfg, v, now).points == [Zero(0.0)]
  {
    hide BucketStart, Sorted, Lists;
    FirstBucket(now, cfg.interval);
    SortedOne(v.buckets, 0.0);
    CloseOneMore(cfg, v.mine, v.last, [], 0.0, BucketStart(now, cfg.interval), now - cfg.expirySeconds);
    assert [] + [0.0] == [0.0];
  }

  /** The reopened bucket makes the counter report it a second time, with a zero. */
  lemma LateOtherRepeats(cfg: Config)
    requires cfg.interval <= cfg.expirySeconds && cfg.interval <= cfg.recentPointThreshold as real
    ensures WellTimed(ReopenedRun(cfg), 0.0) && AllCounters(ReopenedRun(cfg))
    ensures Run(cfg, ReopenedRun(cfg)).points == [Point(Plain, 0.0, 1.0 / cfg.interval), Zero(0.0)]
  {
    hide SubmitMine, SubmitOther, Flush, FlushEmission, Counted;
    var es := ReopenedRun(cfg);
    FourTimed(es, cfg.interval);
    assert Run(cfg, es[..1][..0]) == Outcome(Initial(), []);
    CountOnce(cfg, Initial(), es[0].point);
    var v1 := SubmitMine(cfg, Initial(), es[0].point);
    CountedTime(cfg, v1);
    FlushCounted(cfg, v1, cfg.interval);
    FlushRemembers(cfg, v1, cfg.interval);
    var v2 := Flush(cfg, v1, cfg.interval);
    Reopens(cfg, v2);
    var v3 := SubmitOther(cfg, v2, Some(Half(cfg.interval)), cfg.interval);
    FlushReopened(cfg, v3, cfg.interval);
    assert Run(cfg, es[..1]) == Outcome(v1, []);
    assert Run(cfg, es[..2]) == Outcome(v2, [Point(Plain, 0.0, 1.0 / cfg.interval)]);
    assert Run(cfg, es[..3]) == Outcome(v3, [Point(Plain, 0.0, 1.0 / cfg.interval)]);
  }

  lemma CountedTime(cfg: Config, v: View)
    requires Counted(cfg, v)
    ensures 0.0 in v.mine && v.mine[0.0].sampledAt.Some? && 0.0 <= v.mine[0.0].sampledAt.value
  {
  }

  lemma Reopens(cfg: Config, v: View)
    requires v.buckets == {} && cfg.interval <= cfg.recentPointThreshold as real
    ensures SubmitOther(cfg, v, Some(Half(cfg.interval)), cfg.interval) == v.(buckets := {0.0})
  {
    hide BucketStart;
    FirstBucket(Half(cfg.interval), cfg.interval);
  }
}
