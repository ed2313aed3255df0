/** When metrics expire, when they cannot, and what follows. */
module ContextExpiry {
  import opened Prelude
  import opened Buckets
  import opened Metrics
  import opened ContextFlow
  import opened ContextTheorems
  import opened ContextLaws
  import opened ContextGrouping

  /** The branch the source calls impossible: a completed bucket holds an expired metric. */
  ghost predicate FlushExpires(cfg: Config, v: View, now: real) {
    exists b :: b in v.mine && b < BucketStart(now, cfg.interval) && Expired(v.mine[b].sampledAt, now - cfg.expirySeconds)
  }

  /** The latest flush of a run, or its start. */
  function PreviousFlush(events: seq<Event>, start: real): real
    decreases |events|
  {
    if events == [] then start
    else
      var n := |events| - 1;
      if events[n].Flushed? then events[n].now else PreviousFlush(events[..n], start)
  }

  /** No timestamp lies in a bucket that has not begun when its point is sampled. */
  predicate NotAhead(cfg: Config, e: Event) {
    e.Mine? ==> TooOld(cfg, e.point.timestamp, e.point.now) || BucketFor(cfg, e.point) <= e.point.sampledAt
  }

  ghost predicate AllNotAhead(cfg: Config, events: seq<Event>) {
    forall i :: 0 <= i < |events| ==> NotAhead(cfg, events[i])
  }

  /** Points without a timestamp never are. */
  lemma UntimestampedIsNotAhead(cfg: Config, e: Event)
    requires Untimestamped(e) && FirstReading(e) <= LastReading(e)
    ensures NotAhead(cfg, e)
  {
    hide BucketStart;
    BucketBounds(FirstReading(e), cfg.interval);
  }

  /** Every sample time is after its bucket began, and not before the cutoff of the
      previous flush. */
  ghost predicate SampledLate(cfg: Config, v: View, previous: real) {
    forall b :: b in v.mine && v.mine[b].sampledAt.Some? ==>
      b <= v.mine[b].sampledAt.value && BucketStart(previous, cfg.interval) <= v.mine[b].sampledAt.value
  }

  lemma SubmitSampledLate(cfg: Config, v: View, p: Submission, previous: real)
    requires SampledLate(cfg, v, previous) && previous <= p.sampledAt && NotAhead(cfg, Mine(p))
    ensures SampledLate(cfg, SubmitMine(cfg, v, p), previous)
  {
    hide BucketStart, BucketOf, TooOld, Sample, Fresh;
    BucketBounds(previous, cfg.interval);
    var cell := Lookup(v.mine, BucketOf(cfg, p.timestamp, p.now));
    SampleIntoTimes(cell, p);
  }

  /** A submission leaves the sample time as it was or sets it to its own. */
  lemma SampleIntoTimes(cell: Option<SoundCell>, p: Submission)
    ensures var r := SampleInto(cell, p);
      r.Some? && r.value.sampledAt.Some? ==>
        r.value.sampledAt.value == p.sampledAt || (cell.Some? && r.value.sampledAt == cell.value.sampledAt)
  {
    hide Weight;
  }

  lemma FlushSampledLate(cfg: Config, v: View, previous: real, now: real)
    requires SampledLate(cfg, v, previous)
    ensures SampledLate(cfg, Flush(cfg, v, now), now)
  {
    hide BucketStart, FlushEmission;
  }

  lemma {:induction false} SampledLateAlways(cfg: Config, events: seq<Event>, start: real)
    requires WellTimed(events, start) && AllNotAhead(cfg, events)
    ensures SampledLate(cfg, Run(cfg, events).view, PreviousFlush(events, start))
    ensures PreviousFlush(events, start) <= Clock(events, start)
    decreases |events|
  {
    hide SampledLate, SubmitMine, SubmitOther, Flush, FlushEmission, NotAhead;
    if events == [] {
      NothingSampledLate(cfg, start);
    } else {
      var n := |events| - 1;
      assert forall i :: 0 <= i < n ==> events[..n][i] == events[i];
      SampledLateAlways(cfg, events[..n], start);
      assert NotAhead(cfg, events[n]);
      var before, previous := Run(cfg, events[..n]), PreviousFlush(events[..n], start);
      match events[n]
      case Mine(p) => SubmitSampledLate(cfg, before.view, p, previous);
      case Other(timestamp, now) => OtherSampledLate(cfg, before.view, timestamp, now, previous);
      case Flushed(now) => FlushSampledLate(cfg, before.view, previous, now);
    }
  }

  lemma NothingSampledLate(cfg: Config, start: real)
    ensures SampledLate(cfg, Initial(), start)
  {
  }

  lemma OtherSampledLate(cfg: Config, v: View, timestamp: Option<real>, now: real, previous: real)
    requires SampledLate(cfg, v, previous)
    ensures SampledLate(cfg, SubmitOther(cfg, v, timestamp, now), previous)
  {
    hide BucketStart, BucketOf;
  }

  /** Some completed bucket holds a counter or histogram that only points of rate zero
      have reached. */
  ghost predicate UnsampledDue(cfg: Config, events: seq<Event>, now: real) {
    exists b :: b < BucketStart(now, cfg.interval) && NeverSampled(InBucket(cfg, PendingPoints(cfg, events), b))
  }

  /** Such a bucket always leads to the expiry branch, whatever the run and however soon
      the flush. */
  lemma UnsampledExpires(cfg: Config, events: seq<Event>, now: real)
    requires UnsampledDue(cfg, events, now)
    ensures FlushExpires(cfg, Run(cfg, events).view, now)
  {
    hide BucketStart, NeverSampled, InBucket, PendingPoints, RunFrom;
    var b :| b < BucketStart(now, cfg.interval) && NeverSampled(InBucket(cfg, PendingPoints(cfg, events), b));
    UnsampledIff(cfg, events, b);
  }

  /** Nothing else does when the flush follows its predecessor by at most expiry minus
      interval: it takes the expiry branch if and only if there is such a bucket. */
  lemma FlushExpiresIff(cfg: Config, events: seq<Event>, start: real, now: real)
    requires WellTimed(events, start) && AllNotAhead(cfg, events) && Clock(events, start) <= now
    requires cfg.interval + (now - PreviousFlush(events, start)) <= cfg.expirySeconds
    ensures FlushExpires(cfg, Run(cfg, events).view, now) <==> UnsampledDue(cfg, events, now)
  {
    hide BucketStart, RunFrom, NeverSampled, InBucket, PendingPoints;
    if UnsampledDue(cfg, events, now) {
      UnsampledExpires(cfg, events, now);
    }
    SampledLateAlways(cfg, events, start);
    BucketBounds(PreviousFlush(events, start), cfg.interval);
    var mine := Run(cfg, events).view.mine;
    if FlushExpires(cfg, Run(cfg, events).view, now) {
      var b :| b in mine && b < BucketStart(now, cfg.interval) && Expired(mine[b].sampledAt, now - cfg.expirySeconds);
      UnsampledIff(cfg, events, b);
    }
  }

  /** After any run that ends at most `gap` before a flush, and leaves it no bucket that
      only points of rate zero have reached, that flush expires nothing. */
  ghost predicate NeverExpires(cfg: Config, gap: real) {
    forall events, start, now :: Reaches(cfg, events, start, now, gap) ==> !FlushExpires(cfg, Run(cfg, events).view, now)
  }

  ghost predicate Reaches(cfg: Config, events: seq<Event>, start: real, now: real, gap: real) {
    && WellTimed(events, start) && AllNotAhead(cfg, events) && !UnsampledDue(cfg, events, now)
    && Clock(events, start) <= now <= PreviousFlush(events, start) + gap
  }

  /** The bound is exact: flushes at most `gap` apart can never reach the expiry branch if
      and only if interval plus gap is within the expiry time. */
  lemma NeverExpiresIff(cfg: Config, gap: real)
    requires gap > 0.0
    ensures NeverExpires(cfg, gap) <==> cfg.interval + gap <= cfg.expirySeconds
  {
    hide FlushExpires, UnsampledDue;
    if cfg.interval + gap <= cfg.expirySeconds {
      forall events, start, now | Reaches(cfg, events, start, now, gap)
        ensures !FlushExpires(cfg, Run(cfg, events).view, now)
      {
        FlushExpiresIff(cfg, events, start, now);
      }
    } else {
      var events, now := LateFlush(cfg, gap);
      assert Reaches(cfg, events, 0.0, now, gap);
    }
  }

  function OneCount(rate: real, timestamp: Option<real>, at: real): Event {
    Mine(Submission(CounterType, 1.0, rate, timestamp, at, at))
  }

  lemma FirstBucket(t: real, interval: real)
    requires interval > 0.0
    ensures 0.0 <= t < interval ==> BucketStart(t, interval) == 0.0
    ensures t >= interval ==> BucketStart(t, interval) >= interval
  {
    TimesZero(interval);
    assert 0.0 == Multiple(0, interval);
    var b := BucketStart(t, interval);
    BucketBounds(t, interval);
    if t >= 0.0 { BucketOfNonnegative(t, interval); }
    if b > 0.0 { BucketGap(0.0, b, interval); }
    hide BucketStart;
  }

  /** A counter sampled as its bucket begins, a flush just before the bucket ends, and
      the next one `gap` later. */
  lemma LateFlush(cfg: Config, gap: real) returns (events: seq<Event>, now: real)
    requires gap > 0.0 && cfg.interval + gap > cfg.expirySeconds
    ensures Reaches(cfg, events, 0.0, now, gap) && FlushExpires(cfg, Run(cfg, events).view, now)
  {
    hide BucketStart, RunFrom, UnsampledDue, NotAhead;
    var slack := cfg.interval + gap - cfg.expirySeconds;
    var eps := Half(Least(Least(cfg.interval, gap), slack));
    var flushed := cfg.interval - eps;
    events, now := [OneCount(1.0, None, 0.0), Flushed(flushed)], flushed + gap;
    TwoTimed(OneCount(1.0, None, 0.0), Flushed(flushed));
    UntimestampedIsNotAhead(cfg, events[0]);
    UntimestampedIsNotAhead(cfg, events[1]);
    FirstBucket(now, cfg.interval);
    CountKept(cfg, flushed);
    NothingUnsampled(cfg, events, now);
    assert PreviousFlush(events, 0.0) == flushed;
    assert 0.0 in Run(cfg, events).view.mine && 0.0 < now - cfg.expirySeconds;
  }

  lemma TwoTimed(e: Event, f: Event)
    requires 0.0 <= FirstReading(e) <= LastReading(e) <= FirstReading(f) <= LastReading(f)
    ensures WellTimed([e, f], 0.0) && Clock([e, f], 0.0) == LastReading(f)
  {
    assert [e, f][..1] == [e] && [e][..0] == [];
    assert WellTimed([e][..0], 0.0) && WellTimed([e], 0.0);
  }

  /** One count at time zero is still held after a flush within its bucket. */
  lemma CountKept(cfg: Config, flushed: real)
    requires 0.0 <= flushed < cfg.interval
    ensures Run(cfg, [OneCount(1.0, None, 0.0), Flushed(flushed)]).view.mine == map[0.0 := Cell(CounterMetric(1.0), Some(0.0))]
  {
    hide BucketStart, FlushEmission;
    var e, f := OneCount(1.0, None, 0.0), Flushed(flushed);
    assert [e, f][..1] == [e] && [e][..0] == [];
    FirstBucket(0.0, cfg.interval);
    FirstBucket(flushed, cfg.interval);
    var first := Run(cfg, [e][..0]);
    assert first == Outcome(Initial(), []);
    var view := Run(cfg, [e]).view;
    assert view == SubmitMine(cfg, first.view, e.point);
    assert view.mine == map[0.0 := Cell(CounterMetric(1.0), Some(0.0))] by {
      assert 0.0 + 1.0 * Weight(1.0) as real == 1.0;
    }
    hide SubmitMine;
    assert Run(cfg, [e, f]).view == Flush(cfg, view, flushed);
  }

  lemma NothingUnsampled(cfg: Config, events: seq<Event>, now: real)
    requires forall b :: b in Run(cfg, events).view.mine ==> Run(cfg, events).view.mine[b].sampledAt.Some?
    ensures !UnsampledDue(cfg, events, now)
  {
    hide BucketStart, RunFrom, NeverSampled, InBucket, PendingPoints;
    forall b ensures !NeverSampled(InBucket(cfg, PendingPoints(cfg, events), b)) {
      UnsampledIff(cfg, events, b);
    }
  }

  function Least(a: real, b: real): real { if a <= b then a else b }

  function Half(a: real): real { a / 2.0 }

  /** The shortest run that leads there: a single count of rate zero. A second count with
      another rate keeps it from happening. */
  lemma ZeroRateExpires(cfg: Config, rate: real, now: real)
    requires cfg.interval <= now <= cfg.expirySeconds
    ensures var zero, other := OneCount(0.0, None, 0.0), OneCount(rate, None, 0.0);
      && WellTimed([zero], 0.0) && FlushExpires(cfg, Run(cfg, [zero]).view, now)
      && (FlushExpires(cfg, Run(cfg, [zero, other]).view, now) <==> rate == 0.0)
  {
    hide BucketStart;
    var zero, other := OneCount(0.0, None, 0.0), OneCount(rate, None, 0.0);
    assert [zero][..0] == [] && [zero, other][..1] == [zero] && WellTimed([zero][..0], 0.0);
    FirstBucket(0.0, cfg.interval);
    FirstBucket(now, cfg.interval);
    assert Run(cfg, [zero][..0]) == Outcome(Initial(), []);
    var one := SubmitMine(cfg, Initial(), zero.point);
    assert one.mine == map[0.0 := Fresh(CounterType)];
    assert Run(cfg, [zero]).view == one;
    var two := SubmitMine(cfg, one, other.point);
    assert Run(cfg, [zero, other]).view == two;
    SampleAgain(one.mine[0.0], other.point);
    assert two.mine == map[0.0 := SampleInto(Some(one.mine[0.0]), other.point).value];
    hide SubmitMine, RunFrom, SampleInto;
    assert 0.0 in one.mine && 0.0 in two.mine;
  }

  // ---------- nothing lost ----------

  /** No flush follows its predecessor by more than expiry minus interval. */
  ghost predicate OftenFlushed(cfg: Config, events: seq<Event>, start: real) {
    forall n :: 0 <= n < |events| && events[n].Flushed? ==>
      cfg.interval + (events[n].now - PreviousFlush(events[..n], start)) <= cfg.expirySeconds
  }

  /** A counter that was never sampled has counted nothing. */
  ghost predicate UnsampledIsZero(mine: map<real, SoundCell>) {
    forall b :: b in mine && mine[b].sampledAt.None? ==> CounterValue(mine[b]) == 0.0
  }

  lemma SubmitUnsampledIsZero(cfg: Config, v: View, p: Submission)
    requires UnsampledIsZero(v.mine) && CounterCells(v.mine) && p.mtype.CounterType?
    ensures UnsampledIsZero(SubmitMine(cfg, v, p).mine)
  {
    hide BucketOf, TooOld, Weight;
  }

  lemma {:induction false} UnsampledIsZeroAlways(cfg: Config, events: seq<Event>)
    requires AllCounters(events)
    ensures UnsampledIsZero(Run(cfg, events).view.mine) && CounterCells(Run(cfg, events).view.mine)
    decreases |events|
  {
    hide BucketOf, TooOld, Sample, SampleInto, FlushEmission, BucketStart, CounterValue;
    if events != [] {
      var n := |events| - 1;
      assert forall i :: 0 <= i < n ==> events[..n][i] == events[i];
      UnsampledIsZeroAlways(cfg, events[..n]);
      var v := Run(cfg, events[..n]).view;
      if events[n].Mine? {
        var p := events[n].point;
        SubmitUnsampledIsZero(cfg, v, p);
        SampleKeepsCounter(Lookup(v.mine, BucketOf(cfg, p.timestamp, p.now)), p);
      }
    }
  }

  lemma {:induction false} ExpiredAreZero(mine: map<real, SoundCell>, bs: seq<real>, cutoff: real, expiry: real)
    requires forall b :: b in mine && b < cutoff && Expired(mine[b].sampledAt, expiry) ==> CounterValue(mine[b]) == 0.0
    ensures ExpiredIn(mine, bs, cutoff, expiry) == 0.0
    decreases |bs|
  {
    if bs != [] { ExpiredAreZero(mine, bs[..|bs| - 1], cutoff, expiry); }
  }

  /** A flush that comes often enough throws no counts away, whatever the rates. */
  lemma FlushLosesNothing(cfg: Config, events: seq<Event>, start: real, now: real)
    requires WellTimed(events, start) && AllNotAhead(cfg, events) && AllCounters(events)
    requires Clock(events, start) <= now && cfg.interval + (now - PreviousFlush(events, start)) <= cfg.expirySeconds
    ensures ExpiredBy(cfg, Run(cfg, events).view, now) == 0.0
  {
    hide RunFrom, BucketStart, CounterValue, Sorted, AllNotAhead, AllCounters, WellTimed, ExpiredIn;
    SampledLateAlways(cfg, events, start);
    UnsampledIsZeroAlways(cfg, events);
    BucketBounds(PreviousFlush(events, start), cfg.interval);
    var v := Run(cfg, events).view;
    ExpiredAreZero(v.mine, Sorted(v.buckets), BucketStart(now, cfg.interval), now - cfg.expirySeconds);
  }

  lemma {:induction false} NothingExpiredOver(cfg: Config, events: seq<Event>, start: real)
    requires WellTimed(events, start) && AllNotAhead(cfg, events) && AllCounters(events) && OftenFlushed(cfg, events, start)
    ensures ExpiredSum(cfg, events) == 0.0
    decreases |events|
  {
    hide RunFrom, BucketStart, ExpiredBy, NotAhead;
    if events != [] {
      var n := |events| - 1;
      var before := events[..n];
      assert forall i :: 0 <= i < n ==> before[i] == events[i] && before[..i] == events[..i];
      NothingExpiredOver(cfg, before, start);
      if events[n].Flushed? { FlushLosesNothing(cfg, before, start, events[n].now); }
    }
  }

  /** Flushes that come often enough lose nothing, whatever the rates: every count accepted
      over a run has been flushed or is still held. */
  lemma NothingLost(cfg: Config, events: seq<Event>, start: real)
    requires WellTimed(events, start) && AllNotAhead(cfg, events) && AllCounters(events)
    requires OftenFlushed(cfg, events, start)
    ensures var r := Run(cfg, events); FlushedSum(cfg, r.points) + Held(r.view.mine) == AcceptedSum(cfg, events)
  {
    hide *;
    NothingExpiredOver(cfg, events, start);
    CounterConservation(cfg, events);
  }

  // ---------- silence ----------

  /** The last recorded sample, if any, has expired at `t`. */
  predicate StaleAt(cfg: Config, last: Option<real>, t: real) {
    last.Some? ==> last.value < t - cfg.expirySeconds
  }

  /** Metrics and points of this context lie in buckets from `limit` on only. */
  ghost predicate HeldFrom(mine: map<real, SoundCell>, limit: real) {
    forall b :: b in mine ==> limit <= b
  }

  predicate FallsFrom(cfg: Config, e: Event, limit: real) {
    e.Mine? ==> TooOld(cfg, e.point.timestamp, e.point.now) || limit <= BucketFor(cfg, e.point)
  }

  ghost predicate AllFallFrom(cfg: Config, events: seq<Event>, limit: real) {
    forall i :: 0 <= i < |events| ==> FallsFrom(cfg, events[i], limit)
  }

  lemma {:induction false} StaleCloses(cfg: Config, mine: map<real, SoundCell>, last: Option<real>, bs: seq<real>,
        cutoff: real, expiry: real)
    requires HeldFrom(mine, cutoff) && (last.Some? ==> last.value < expiry)
    ensures var r := CloseBuckets(cfg, mine, last, bs, cutoff, expiry); r.points == [] && (r.last == last || r.last == None)
    decreases |bs|
  {
    if bs != [] { StaleCloses(cfg, mine, last, bs[..|bs| - 1], cutoff, expiry); }
  }

  /** No point is emitted once the last recorded sample is older than the expiry time,
      however many flushes and points follow, until a flush completes a bucket this
      context was sampled in. */
  lemma {:induction false} StaysSilent(cfg: Config, v: View, events: seq<Event>, start: real, limit: real)
    requires StaleAt(cfg, v.last, start) && HeldFrom(v.mine, limit) && AllFallFrom(cfg, events, limit)
    requires WellTimed(events, start) && BucketStart(Clock(events, start), cfg.interval) <= limit
    ensures var r := RunFrom(cfg, v, events);
      r.points == [] && HeldFrom(r.view.mine, limit) && (r.view.last == v.last || r.view.last.None?)
    ensures start <= Clock(events, start)
    decreases |events|
  {
    hide FlushEmission, BucketStart, SubmitMine, SubmitOther, Flush, HeldFrom, FallsFrom, StaleAt;
    if events != [] {
      var n := |events| - 1;
      assert forall i :: 0 <= i < n ==> events[..n][i] == events[i];
      BucketMonotone(Clock(events[..n], start), Clock(events, start), cfg.interval);
      StaysSilent(cfg, v, events[..n], start, limit);
      assert FallsFrom(cfg, events[n], limit);
      var u := RunFrom(cfg, v, events[..n]).view;
      StaleStays(cfg, v.last, u.last, start);
      match events[n]
      case Mine(p) => MineHeldFrom(cfg, u, p, limit);
      case Other(timestamp, now) => OtherHeldFrom(cfg, u, timestamp, now);
      case Flushed(now) => StaleFlush(cfg, u, now, start, limit);
    }
  }

  lemma StaleStays(cfg: Config, last: Option<real>, later: Option<real>, t: real)
    requires StaleAt(cfg, last, t) && (later == last || later.None?)
    ensures StaleAt(cfg, later, t)
  {
  }

  lemma MineHeldFrom(cfg: Config, u: View, p: Submission, limit: real)
    requires HeldFrom(u.mine, limit) && FallsFrom(cfg, Mine(p), limit)
    ensures HeldFrom(SubmitMine(cfg, u, p).mine, limit) && SubmitMine(cfg, u, p).last == u.last
  {
    hide BucketOf, TooOld, SampleInto;
  }

  lemma OtherHeldFrom(cfg: Config, u: View, timestamp: Option<real>, now: real)
    ensures SubmitOther(cfg, u, timestamp, now).mine == u.mine && SubmitOther(cfg, u, timestamp, now).last == u.last
  {
  }

  lemma StaleFlush(cfg: Config, u: View, now: real, start: real, limit: real)
    requires StaleAt(cfg, u.last, start) && HeldFrom(u.mine, limit) && start <= now && BucketStart(now, cfg.interval) <= limit
    ensures FlushEmission(cfg, u, now).points == [] && HeldFrom(Flush(cfg, u, now).mine, limit)
    ensures Flush(cfg, u, now).last == u.last || Flush(cfg, u, now).last.None?
  {
    hide BucketStart, CloseBuckets;
    StaleCloses(cfg, u.mine, u.last, Sorted(u.buckets), BucketStart(now, cfg.interval), now - cfg.expirySeconds);
  }
}
