/** What holds in every reachable state of the forwarder, conjunct by conjunct. */
module ForwarderInvariants {
  import opened Prelude
  import opened Sorting
  import opened Forwarder
  import opened ForwarderLedger

  ghost predicate Registered(trs: map<nat, Tr>, l: Ledger, c: Cycle, h: History) {
    && (forall id :: id in trs ==> 1 <= id <= l.counter)
    && (forall id :: id in l.transactions ==> id in trs)
    && (forall id :: id in Queue(c) ==> id in trs)
    && (forall id :: id in c.inFlight ==> id in trs)
    && (forall k :: 0 <= k < |h.log| ==> h.log[k].id in trs)
    && (forall k :: 0 <= k < |h.failures| ==> h.failures[k].id in trs)
  }

  ghost predicate NoDuplicates(xs: seq<nat>) {
    forall i, j :: 0 <= i < j < |xs| ==> xs[i] != xs[j]
  }

  /** In flight and queued are disjoint, the running count is exact and bounded, and
      `None` means nothing is in flight. */
  ghost predicate Flight(cfg: Config, c: Cycle) {
    && c.running == |c.inFlight| <= cfg.maxParallelism
    && (c.toFlush.None? ==> c.inFlight == {})
    && NoDuplicates(Queue(c))
    && (forall id :: id in Queue(c) ==> id !in c.inFlight)
  }

  /** Each transaction is dispatched at most once per flush. */
  ghost predicate Once(c: Cycle, h: History) {
    && h.first <= |h.log|
    && (forall k :: h.first <= k < |h.log| ==> h.log[k].id !in Queue(c))
    && (forall k, m :: h.first <= k < m < |h.log| ==> h.log[k].id != h.log[m].id)
    && (forall id :: id in c.inFlight ==> DispatchedNow(h, id))
  }

  ghost predicate DispatchedNow(h: History, id: nat) {
    exists k :: 0 <= h.first <= k < |h.log| && h.log[k].id == id
  }

  /** Fewest errors first, newest first among equals. */
  predicate Precedes(errors: nat, id: nat, errors': nat, id': nat) {
    errors < errors' || (errors == errors' && id > id')
  }

  ghost predicate QueueSorted(trs: map<nat, Tr>, q: seq<nat>) {
    forall i, j :: 0 <= i < j < |q| ==> Precedes(At(trs, q[j]).errors, q[j], At(trs, q[i]).errors, q[i])
  }

  ghost predicate Ordered(trs: map<nat, Tr>, q: seq<nat>, h: History) {
    && QueueSorted(trs, q)
    && (forall k, m :: 0 <= h.first <= k < m < |h.log| ==>
          Precedes(h.log[k].errors, h.log[k].id, h.log[m].errors, h.log[m].id))
    && (forall k, id :: 0 <= h.first <= k < |h.log| && id in q ==>
          Precedes(h.log[k].errors, h.log[k].id, At(trs, id).errors, id))
  }

  ghost function InFlightOf(trs: map<nat, Tr>, inFlight: set<nat>, endpoint: string): set<nat> {
    set id | id in inFlight && At(trs, id).endpoint == endpoint
  }

  /** No endpoint at the error threshold has anything queued. */
  ghost predicate Tripped(cfg: Config, trs: map<nat, Tr>, c: Cycle) {
    cfg.maxEndpointErrors >= 1 ==>
      forall id :: id in Queue(c) ==> EndpointErrors(c, At(trs, id).endpoint) < cfg.maxEndpointErrors
  }

  /** An endpoint's errors and its requests in flight together stay bounded. */
  ghost predicate Bounded(cfg: Config, trs: map<nat, Tr>, c: Cycle) {
    cfg.maxEndpointErrors >= 1 ==>
      forall e :: EndpointErrors(c, e) + |InFlightOf(trs, c.inFlight, e)| <= BreakerBound(cfg)
  }

  function BreakerBound(cfg: Config): int {
    cfg.maxEndpointErrors + if cfg.maxParallelism == 0 then 0 else cfg.maxParallelism - 1
  }

  /** The readings of a dispatch, in the order they were taken. */
  predicate InOrder(d: Dispatch) { d.checked <= d.paced <= d.at }

  /** Dispatches are throttled over the whole run; those of the current flush started
      before the cut-off. */
  ghost predicate Throttled(cfg: Config, c: Cycle, h: History) {
    && (h.log != [] ==> h.log[|h.log| - 1].at == c.lastFlush)
    && (forall k :: 0 <= k < |h.log| ==> InOrder(h.log[k]))
    && (forall k :: 0 <= k < |h.log| - 1 ==>
          h.log[k].at <= h.log[k + 1].checked && h.log[k].at + cfg.throttlingDelay <= h.log[k + 1].paced)
    && (forall k :: 0 <= h.first <= k < |h.log| ==>
          c.flushTime <= h.log[k].checked < c.flushTime + MAX_FLUSH_DURATION)
  }

  ghost predicate Live(l: Ledger, c: Cycle, id: nat) {
    id in l.transactions || id in Queue(c) || id in c.inFlight
  }

  /** The next flush is the latest recompute plus the delay, to the second, or else the
      time of creation. */
  predicate Recomputed(cfg: Config, tr: Tr) {
    && (tr.backoffAt.Some? ==> tr.nextFlush == WholeSecond(tr.backoffAt.value + Delay(cfg, tr.errors)))
    && (tr.backoffAt.None? ==> tr.nextFlush == tr.created)
    && (tr.errors > 0 ==> tr.backoffAt.Some?)
  }

  ghost predicate Replayable(cfg: Config, trs: map<nat, Tr>, l: Ledger, c: Cycle) {
    && (forall id :: Live(l, c, id) ==> Recomputed(cfg, At(trs, id)))
    && (forall id :: id in Queue(c) ==> At(trs, id).nextFlush <= c.flushTime)
  }

  /** A failure's earliest replay. */
  function NotBefore(cfg: Config, f: Failure): int { f.at + Delay(cfg, f.errors) - SECOND }

  /** No dispatch with e errors or more came within the delay of the e-th failure. */
  ghost predicate Spaced(cfg: Config, trs: map<nat, Tr>, h: History) {
    && (forall k :: 0 <= k < |h.log| ==> h.log[k].errors <= At(trs, h.log[k].id).errors)
    && (forall f :: f in h.failures ==> f.errors <= At(trs, f.id).errors && NotBefore(cfg, f) < At(trs, f.id).nextFlush)
    && (forall f, d :: f in h.failures && d in h.log && d.id == f.id && d.errors >= f.errors ==> NotBefore(cfg, f) < d.at)
  }

  /** Everything recorded happened by now. */
  ghost predicate Past(now: int, trs: map<nat, Tr>, l: Ledger, c: Cycle, h: History) {
    && c.lastFlush <= now
    && (c.toFlush.Some? ==> c.flushTime <= now)
    && (forall f :: f in h.failures ==> f.at <= now)
    && (forall id :: Live(l, c, id) && At(trs, id).backoffAt.Some? ==> At(trs, id).backoffAt.value <= now)
  }

  ghost predicate Inv(cfg: Config, w: World, s: State) {
    InvButTripped(cfg, w, s) && Tripped(cfg, s.trs, s.cycle)
  }

  ghost predicate InvButTripped(cfg: Config, w: World, s: State) {
    && Registered(s.trs, s.ledger, s.cycle, s.history)
    && Accounted(s.trs, s.ledger)
    && Flight(cfg, s.cycle)
    && Once(s.cycle, s.history)
    && Ordered(s.trs, Queue(s.cycle), s.history)
    && Bounded(cfg, s.trs, s.cycle)
    && Throttled(cfg, s.cycle, s.history)
    && Timed(cfg, w, s)
  }

  ghost predicate Timed(cfg: Config, w: World, s: State) {
    && Replayable(cfg, s.trs, s.ledger, s.cycle)
    && Spaced(cfg, s.trs, s.history)
    && Past(Now(w, s), s.trs, s.ledger, s.cycle, s.history)
  }

  lemma InitialInv(cfg: Config, w: World)
    requires Nondecreasing(w)
    ensures Inv(cfg, w, Initial(w))
  {
    hide Delay, WholeSecond, Recomputed, NotBefore, Precedes;
    var s := Initial(w);
    assert forall e :: InFlightOf(s.trs, s.cycle.inFlight, e) == {};
  }

  lemma WholeSecondBounds(t: int)
    ensures t - SECOND < WholeSecond(t) <= t
  {
  }

  lemma WholeSecondMonotone(t: int, u: int)
    requires t <= u
    ensures WholeSecond(t) <= WholeSecond(u)
  {
    assert WholeSecond(t) == SECOND * (t / SECOND) && WholeSecond(u) == SECOND * (u / SECOND);
  }

  // ---------- quiet steps ----------

  lemma TickKeeps(cfg: Config, w: World, s: State)
    requires Nondecreasing(w) && Inv(cfg, w, s)
    ensures Inv(cfg, w, Tick(s)) && Now(w, s) <= Now(w, Tick(s))
  {
  }

  /** Dropping the queue at the cut-off, or ending the flush once nothing runs. */
  lemma EmptyQueueKeeps(cfg: Config, w: World, s: State, toFlush: Option<seq<nat>>)
    requires Inv(cfg, w, s) && (s.cycle.toFlush.None? ==> toFlush.None?)
    requires toFlush == Some([]) || (toFlush == None && s.cycle.running == 0)
    ensures Inv(cfg, w, s.(cycle := s.cycle.(toFlush := toFlush)))
  {
    hide Accounted, Spaced, Recomputed;
    EmptyQueueBreaker(cfg, s.trs, s.cycle, toFlush);
    hide Bounded;
  }

  lemma EmptyQueueBreaker(cfg: Config, trs: map<nat, Tr>, c: Cycle, toFlush: Option<seq<nat>>)
    ensures Bounded(cfg, trs, c) ==> Bounded(cfg, trs, c.(toFlush := toFlush))
  {
    assert forall e :: EndpointErrors(c.(toFlush := toFlush), e) == EndpointErrors(c, e);
  }

  /** Pending timers and the flush counter are no one else's business. */
  lemma BookkeepingKeeps(cfg: Config, w: World, s: State, timers: nat, flushCount: nat)
    requires Inv(cfg, w, s)
    ensures Inv(cfg, w, s.(timers := timers, flushCount := flushCount))
  {
  }

  // ---------- launching ----------

  /** The guard of `flush_next` under which a transaction is popped, at the readings it used. */
  ghost predicate MayLaunch(cfg: Config, w: World, s: State, checked: int, paced: int) {
    && Queue(s.cycle) != []
    && s.cycle.lastFlush <= checked <= paced <= Now(w, s)
    && s.cycle.flushTime <= checked < s.cycle.flushTime + MAX_FLUSH_DURATION
    && s.cycle.lastFlush + cfg.throttlingDelay <= paced
    && s.cycle.running < cfg.maxParallelism
  }

  lemma LaunchedKeeps(cfg: Config, w: World, s: State, checked: int, paced: int)
    requires Nondecreasing(w) && Inv(cfg, w, s) && MayLaunch(cfg, w, s, checked, paced)
    ensures Inv(cfg, w, Launched(w, s, checked, paced))
  {
    hide Flight, Once, Registered, Ordered, Bounded, Throttled, Spaced, Replayable, Past, Accounted, Tripped;
    LaunchedFlight(cfg, w, s, checked, paced);
    LaunchedOrder(w, s, checked, paced);
    LaunchedBreaker(cfg, w, s, checked, paced);
    LaunchedTimes(cfg, w, s, checked, paced);
  }

  lemma LaunchedFlight(cfg: Config, w: World, s: State, checked: int, paced: int)
    requires Queue(s.cycle) != [] && s.cycle.running < cfg.maxParallelism
    requires Flight(cfg, s.cycle) && Once(s.cycle, s.history)
    requires Registered(s.trs, s.ledger, s.cycle, s.history)
    ensures var r := Launched(w, s, checked, paced);
      && Flight(cfg, r.cycle) && Once(r.cycle, r.history)
      && Registered(r.trs, r.ledger, r.cycle, r.history)
  {
    var q := Queue(s.cycle);
    var n := |q| - 1;
    assert q[n] !in q[..n];
    assert forall x :: x in q[..n] ==> x in q;
    LaunchedOnce(w, s, checked, paced);
    LaunchedRegistered(w, s, checked, paced);
    hide Once, Registered;
  }

  lemma LaunchedRegistered(w: World, s: State, checked: int, paced: int)
    requires Queue(s.cycle) != [] && Registered(s.trs, s.ledger, s.cycle, s.history)
    ensures var r := Launched(w, s, checked, paced); Registered(r.trs, r.ledger, r.cycle, r.history)
  {
    var q := Queue(s.cycle);
    assert q[|q| - 1] in q && forall x :: x in q[..|q| - 1] ==> x in q;
  }

  lemma LaunchedOnce(w: World, s: State, checked: int, paced: int)
    requires Queue(s.cycle) != [] && NoDuplicates(Queue(s.cycle)) && Once(s.cycle, s.history)
    ensures var r := Launched(w, s, checked, paced); Once(r.cycle, r.history)
  {
    var q := Queue(s.cycle);
    var n := |q| - 1;
    var r := Launched(w, s, checked, paced);
    assert q[n] !in q[..n] && q[n] in q;
    assert forall x :: x in q[..n] ==> x in q;
    forall id | id in r.cycle.inFlight ensures DispatchedNow(r.history, id) {
      if id == q[n] {
        assert r.history.log[|s.history.log|].id == id;
      } else {
        var k :| 0 <= s.history.first <= k < |s.history.log| && s.history.log[k].id == id;
        assert r.history.log[k].id == id;
      }
    }
  }

  lemma LaunchedOrder(w: World, s: State, checked: int, paced: int)
    requires Queue(s.cycle) != [] && Ordered(s.trs, Queue(s.cycle), s.history)
    ensures var r := Launched(w, s, checked, paced); Ordered(r.trs, Queue(r.cycle), r.history)
  {
    var q := Queue(s.cycle);
    var n := |q| - 1;
    assert q[n] in q;
    assert forall x :: x in q[..n] ==> x in q;
  }

  lemma LaunchedBreaker(cfg: Config, w: World, s: State, checked: int, paced: int)
    requires Queue(s.cycle) != [] && s.cycle.running < cfg.maxParallelism
    requires Flight(cfg, s.cycle) && Tripped(cfg, s.trs, s.cycle) && Bounded(cfg, s.trs, s.cycle)
    ensures var r := Launched(w, s, checked, paced); Tripped(cfg, r.trs, r.cycle) && Bounded(cfg, r.trs, r.cycle)
  {
    var q := Queue(s.cycle);
    var id := q[|q| - 1];
    var r := Launched(w, s, checked, paced);
    assert id in q && forall x :: x in q[..|q| - 1] ==> x in q;
    forall e | cfg.maxEndpointErrors >= 1
      ensures EndpointErrors(r.cycle, e) + |InFlightOf(r.trs, r.cycle.inFlight, e)| <= BreakerBound(cfg)
    {
      var before, after := InFlightOf(s.trs, s.cycle.inFlight, e), InFlightOf(r.trs, r.cycle.inFlight, e);
      if At(s.trs, id).endpoint == e {
        SubsetSize(after, r.cycle.inFlight);
        assert |r.cycle.inFlight| <= s.cycle.running + 1;
      } else {
        assert after == before;
        assert EndpointErrors(s.cycle, e) + |before| <= BreakerBound(cfg);
      }
    }
  }

  lemma {:induction false} SubsetSize<T>(a: set<T>, b: set<T>)
    requires a <= b
    ensures |a| <= |b|
    decreases |a|
  {
    if a != {} {
      var x :| x in a;
      SubsetSize(a - {x}, b - {x});
    }
  }

  lemma LaunchedTimes(cfg: Config, w: World, s: State, checked: int, paced: int)
    requires Nondecreasing(w) && MayLaunch(cfg, w, s, checked, paced)
    requires Throttled(cfg, s.cycle, s.history) && Timed(cfg, w, s)
    ensures var r := Launched(w, s, checked, paced); Throttled(cfg, r.cycle, r.history) && Timed(cfg, w, r)
  {
    hide Delay, WholeSecond, Recomputed;
    var q := Queue(s.cycle);
    var r := Launched(w, s, checked, paced);
    assert Now(w, s) <= Now(w, r);
    assert q[|q| - 1] in q && forall x :: x in q[..|q| - 1] ==> x in q;
    assert forall x :: Live(r.ledger, r.cycle, x) ==> Live(s.ledger, s.cycle, x);
    LaunchedSpaced(cfg, w, s, checked, paced);
  }

  lemma LaunchedSpaced(cfg: Config, w: World, s: State, checked: int, paced: int)
    requires Queue(s.cycle) != [] && Spaced(cfg, s.trs, s.history)
    requires var q := Queue(s.cycle); At(s.trs, q[|q| - 1]).nextFlush <= Now(w, s)
    ensures Spaced(cfg, s.trs, Launched(w, s, checked, paced).history)
  {
    hide NotBefore;
  }

  // ---------- a failure ----------

  lemma ChargeKeeps(cfg: Config, w: World, s: State, id: nat)
    requires Nondecreasing(w) && Inv(cfg, w, s) && id in s.cycle.inFlight
    ensures var r := Charge(cfg, w, s, id);
      && InvButTripped(cfg, w, r)
      && TrippedExcept(cfg, r.trs, r.cycle, At(s.trs, id).endpoint)
  {
    hide Registered, Accounted, Once, Ordered, Bounded, Tripped, TrippedExcept, Throttled, Replayable, Spaced, Past, Charge;
    ChargeFlight(cfg, w, s, id);
    ChargeAccounts(cfg, w, s, id);
    ChargeOrder(cfg, w, s, id);
    ChargeBounded(cfg, w, s, id);
    ChargeReplayable(cfg, w, s, id);
    ChargeSpaced(cfg, w, s, id);
    ChargePast(cfg, w, s, id);
  }

  lemma ChargeAccounts(cfg: Config, w: World, s: State, id: nat)
    requires Accounted(s.trs, s.ledger) && Throttled(cfg, s.cycle, s.history)
    ensures var r := Charge(cfg, w, s, id); Accounted(r.trs, r.ledger) && Throttled(cfg, r.cycle, r.history)
  {
    SameSizesAccount(s.trs, Charge(cfg, w, s, id).trs, s.ledger);
  }

  lemma ChargeFlight(cfg: Config, w: World, s: State, id: nat)
    requires Flight(cfg, s.cycle) && Once(s.cycle, s.history) && id in s.cycle.inFlight
    requires Registered(s.trs, s.ledger, s.cycle, s.history)
    ensures var r := Charge(cfg, w, s, id);
      Flight(cfg, r.cycle) && Once(r.cycle, r.history) && Registered(r.trs, r.ledger, r.cycle, r.history)
  {
    var r := Charge(cfg, w, s, id);
    assert r.trs.Keys == s.trs.Keys;
    assert forall x :: x in r.cycle.inFlight && DispatchedNow(s.history, x) ==> DispatchedNow(r.history, x);
  }

  lemma ChargeOrder(cfg: Config, w: World, s: State, id: nat)
    requires id !in Queue(s.cycle) && Ordered(s.trs, Queue(s.cycle), s.history) && Tripped(cfg, s.trs, s.cycle)
    ensures var r := Charge(cfg, w, s, id);
      Ordered(r.trs, Queue(r.cycle), r.history) && TrippedExcept(cfg, r.trs, r.cycle, At(s.trs, id).endpoint)
  {
    var r := Charge(cfg, w, s, id);
    var q := Queue(s.cycle);
    assert forall x :: x in q ==> At(r.trs, x) == At(s.trs, x);
    assert forall i :: 0 <= i < |q| ==> q[i] in q;
  }

  /** All endpoints but the one just charged are below the threshold or unqueued; the
      charged one is too unless it has just reached the threshold. */
  ghost predicate TrippedExcept(cfg: Config, trs: map<nat, Tr>, c: Cycle, endpoint: string) {
    cfg.maxEndpointErrors >= 1 ==>
      forall id :: id in Queue(c) ==>
        EndpointErrors(c, At(trs, id).endpoint) < cfg.maxEndpointErrors
        || (At(trs, id).endpoint == endpoint && EndpointErrors(c, endpoint) == cfg.maxEndpointErrors)
  }

  lemma ChargeBounded(cfg: Config, w: World, s: State, id: nat)
    requires Bounded(cfg, s.trs, s.cycle) && id in s.cycle.inFlight
    ensures var r := Charge(cfg, w, s, id); Bounded(cfg, r.trs, r.cycle)
  {
    hide Charge, InFlightOf, EndpointErrors, BreakerBound, At;
    var r := Charge(cfg, w, s, id);
    forall e | cfg.maxEndpointErrors >= 1
      ensures EndpointErrors(r.cycle, e) + |InFlightOf(r.trs, r.cycle.inFlight, e)| <= BreakerBound(cfg)
    {
      assert EndpointErrors(s.cycle, e) + |InFlightOf(s.trs, s.cycle.inFlight, e)| <= BreakerBound(cfg);
      ChargedEndpoint(cfg, w, s, id, e);
    }
  }

  /** One error more, one request in flight fewer, for the endpoint of the transaction only. */
  lemma ChargedEndpoint(cfg: Config, w: World, s: State, id: nat, e: string)
    requires id in s.cycle.inFlight
    ensures var r := Charge(cfg, w, s, id);
      var before, after := InFlightOf(s.trs, s.cycle.inFlight, e), InFlightOf(r.trs, r.cycle.inFlight, e);
      && after == before - {id} && (id in before <==> At(s.trs, id).endpoint == e)
      && EndpointErrors(r.cycle, e) == EndpointErrors(s.cycle, e) + if At(s.trs, id).endpoint == e then 1 else 0
  {
    hide Delay, WholeSecond;
  }

  lemma DelayMonotone(cfg: Config, e: nat, e': nat)
    requires e <= e'
    ensures Delay(cfg, e) <= Delay(cfg, e')
  {
  }

  lemma ChargeReplayable(cfg: Config, w: World, s: State, id: nat)
    requires id !in Queue(s.cycle) && Replayable(cfg, s.trs, s.ledger, s.cycle)
    ensures var r := Charge(cfg, w, s, id); Replayable(cfg, r.trs, r.ledger, r.cycle)
  {
    var r := Charge(cfg, w, s, id);
    assert forall x :: x != id ==> At(r.trs, x) == At(s.trs, x);
    assert forall x :: Live(r.ledger, r.cycle, x) ==> Live(s.ledger, s.cycle, x);
  }

  lemma ChargeSpaced(cfg: Config, w: World, s: State, id: nat)
    requires Spaced(cfg, s.trs, s.history) && Past(Now(w, s), s.trs, s.ledger, s.cycle, s.history)
    ensures var r := Charge(cfg, w, s, id); Spaced(cfg, r.trs, r.history)
  {
    var r := Charge(cfg, w, s, id);
    var now := Now(w, s);
    var e := At(r.trs, id).errors;
    var f' := Failure(id, e, now);
    WholeSecondBounds(now + Delay(cfg, e));
    forall f | f in r.history.failures
      ensures f.errors <= At(r.trs, f.id).errors && NotBefore(cfg, f) < At(r.trs, f.id).nextFlush
    {
      if f != f' {
        assert f in s.history.failures;
        if f.id == id { DelayMonotone(cfg, f.errors, e); }
      }
    }
    forall d | d in s.history.log && d.id == id ensures d.errors < e {
      var k :| 0 <= k < |s.history.log| && s.history.log[k] == d;
    }
  }

  lemma ChargePast(cfg: Config, w: World, s: State, id: nat)
    requires Nondecreasing(w) && Past(Now(w, s), s.trs, s.ledger, s.cycle, s.history)
    ensures var r := Charge(cfg, w, s, id); Past(Now(w, r), r.trs, r.ledger, r.cycle, r.history)
  {
    var r := Charge(cfg, w, s, id);
    assert Now(w, s) <= Now(w, r);
    assert forall x :: x != id ==> At(r.trs, x) == At(s.trs, x);
    assert forall x :: Live(r.ledger, r.cycle, x) ==> Live(s.ledger, s.cycle, x);
  }

  // ---------- tripping ----------

  /** The loop keeps exactly the transactions of other endpoints, in their order. */
  ghost predicate SkipKeeps(trs: map<nat, Tr>, queue: seq<nat>, endpoint: string, kept: seq<nat>) {
    && QueueSorted(trs, kept)
    && NoDuplicates(kept)
    && (forall id :: id in kept <==> id in queue && At(trs, id).endpoint != endpoint)
  }

  /** `tr'` is `tr` with its next flush recomputed some time between `from` and `to`. */
  ghost predicate PutOff(cfg: Config, tr: Tr, tr': Tr, from: int, to: int) {
    tr'.backoffAt.Some? && from <= tr'.backoffAt.value <= to && tr' == Backoff(cfg, tr, tr'.backoffAt.value)
  }

  /** Kept transactions are untouched; the skipped ones are recomputed, each at a reading of its own. */
  ghost predicate SkipRecomputes(cfg: Config, trs: map<nat, Tr>, queue: seq<nat>, endpoint: string,
                                  trs': map<nat, Tr>, from: int, to: int) {
    && trs'.Keys == trs.Keys
    && (forall id :: id !in queue || At(trs, id).endpoint != endpoint ==> At(trs', id) == At(trs, id))
    && (forall id :: id in queue && At(trs, id).endpoint == endpoint ==> PutOff(cfg, At(trs, id), At(trs', id), from, to))
  }

  lemma {:induction false} SkipEffect(cfg: Config, w: World, trs: map<nat, Tr>, ticks: nat, queue: seq<nat>,
        endpoint: string)
    requires Nondecreasing(w) && NoDuplicates(queue)
    requires forall id :: id in queue ==> id in trs
    ensures var r := SkipEndpoint(cfg, w, trs, ticks, queue, endpoint);
      ticks <= r.ticks && SkipRecomputes(cfg, trs, queue, endpoint, r.trs, w.clock(ticks), w.clock(r.ticks))
    decreases |queue|
  {
    if queue != [] {
      var n := |queue| - 1;
      var id := queue[n];
      assert queue == queue[..n] + [id] && id !in queue[..n];
      SkipEffect(cfg, w, trs, ticks, queue[..n], endpoint);
      var before := SkipEndpoint(cfg, w, trs, ticks, queue[..n], endpoint);
      assert w.clock(ticks) <= w.clock(before.ticks) <= w.clock(before.ticks + 1);
    }
  }

  lemma {:induction false} SkipKept(cfg: Config, w: World, trs: map<nat, Tr>, ticks: nat, queue: seq<nat>,
        endpoint: string)
    requires Nondecreasing(w) && NoDuplicates(queue) && QueueSorted(trs, queue)
    requires forall id :: id in queue ==> id in trs
    ensures SkipKeeps(trs, queue, endpoint, SkipEndpoint(cfg, w, trs, ticks, queue, endpoint).kept)
    decreases |queue|
  {
    if queue != [] {
      var n := |queue| - 1;
      var id := queue[n];
      assert queue == queue[..n] + [id] && id !in queue[..n];
      SkipKept(cfg, w, trs, ticks, queue[..n], endpoint);
      SkipEffect(cfg, w, trs, ticks, queue[..n], endpoint);
      var before := SkipEndpoint(cfg, w, trs, ticks, queue[..n], endpoint);
      if At(trs, id).endpoint != endpoint { KeepLast(trs, queue, before.kept); }
    }
  }

  lemma KeepLast(trs: map<nat, Tr>, queue: seq<nat>, kept: seq<nat>)
    requires queue != [] && NoDuplicates(queue) && QueueSorted(trs, queue)
    requires QueueSorted(trs, kept) && NoDuplicates(kept) && forall id :: id in kept ==> id in queue[..|queue| - 1]
    ensures QueueSorted(trs, kept + [queue[|queue| - 1]]) && NoDuplicates(kept + [queue[|queue| - 1]])
  {
    var n := |queue| - 1;
    forall i | 0 <= i < |kept|
      ensures kept[i] != queue[n] && Precedes(At(trs, queue[n]).errors, queue[n], At(trs, kept[i]).errors, kept[i])
    {
      var id := kept[i];
      assert id in kept;
      assert id in queue[..n];
      var j :| 0 <= j < n && queue[..n][j] == id;
      assert queue[j] == id;
    }
  }

  lemma TripKeeps(cfg: Config, w: World, s: State, endpoint: string)
    requires Nondecreasing(w) && s.cycle.toFlush.Some? && InvButTripped(cfg, w, s)
    requires TrippedExcept(cfg, s.trs, s.cycle, endpoint)
    ensures Inv(cfg, w, Trip(cfg, w, s, endpoint))
  {
    var q := Queue(s.cycle);
    SkipEffect(cfg, w, s.trs, s.ticks, q, endpoint);
    SkipKept(cfg, w, s.trs, s.ticks, q, endpoint);
    hide SkipRecomputes, SkipKeeps, SkipEndpoint, Registered, Accounted, Flight, Once, Ordered, Bounded, Throttled, Timed,
         TrippedExcept;
    var k := SkipEndpoint(cfg, w, s.trs, s.ticks, q, endpoint);
    TripFlight(cfg, s, endpoint, k, w.clock(s.ticks), w.clock(k.ticks));
    TripOrder(cfg, s.trs, s.history, q, endpoint, k.trs, w.clock(s.ticks), w.clock(k.ticks), k.kept);
    TripBreaker(cfg, s.trs, s.cycle, endpoint, k.trs, w.clock(s.ticks), w.clock(k.ticks), k.kept);
    TripTimes(cfg, w, s, endpoint, k);
  }

  lemma TripFlight(cfg: Config, s: State, endpoint: string, k: Skipped, from: int, to: int)
    requires s.cycle.toFlush.Some? && Registered(s.trs, s.ledger, s.cycle, s.history) && Accounted(s.trs, s.ledger)
    requires Flight(cfg, s.cycle) && Once(s.cycle, s.history) && Throttled(cfg, s.cycle, s.history)
    requires SkipRecomputes(cfg, s.trs, Queue(s.cycle), endpoint, k.trs, from, to)
    requires SkipKeeps(s.trs, Queue(s.cycle), endpoint, k.kept)
    ensures var c := s.cycle.(toFlush := Some(k.kept));
      && Registered(k.trs, s.ledger, c, s.history) && Accounted(k.trs, s.ledger)
      && Flight(cfg, c) && Once(c, s.history) && Throttled(cfg, c, s.history)
  {
    SameSizesAccount(s.trs, k.trs, s.ledger);
  }

  lemma TripOrder(cfg: Config, trs: map<nat, Tr>, h: History, q: seq<nat>, endpoint: string, trs': map<nat, Tr>,
        from: int, to: int, kept: seq<nat>)
    requires Ordered(trs, q, h) && SkipRecomputes(cfg, trs, q, endpoint, trs', from, to) && SkipKeeps(trs, q, endpoint, kept)
    ensures Ordered(trs', kept, h)
  {
    assert forall id :: id in kept ==> id in q && At(trs', id) == At(trs, id);
    assert forall i :: 0 <= i < |kept| ==> kept[i] in kept;
  }

  lemma TripBreaker(cfg: Config, trs: map<nat, Tr>, c: Cycle, endpoint: string, trs': map<nat, Tr>, from: int,
        to: int, kept: seq<nat>)
    requires Bounded(cfg, trs, c) && TrippedExcept(cfg, trs, c, endpoint)
    requires SkipRecomputes(cfg, trs, Queue(c), endpoint, trs', from, to) && SkipKeeps(trs, Queue(c), endpoint, kept)
    requires c.toFlush.Some?
    ensures Bounded(cfg, trs', c.(toFlush := Some(kept))) && Tripped(cfg, trs', c.(toFlush := Some(kept)))
  {
    assert forall id :: At(trs', id).endpoint == At(trs, id).endpoint;
    assert forall e :: InFlightOf(trs', c.inFlight, e) == InFlightOf(trs, c.inFlight, e);
    var c' := c.(toFlush := Some(kept));
    assert forall e :: EndpointErrors(c', e) == EndpointErrors(c, e);
  }

  lemma TripTimes(cfg: Config, w: World, s: State, endpoint: string, k: Skipped)
    requires Nondecreasing(w) && s.cycle.toFlush.Some?
    requires k == SkipEndpoint(cfg, w, s.trs, s.ticks, Queue(s.cycle), endpoint)
    requires SkipRecomputes(cfg, s.trs, Queue(s.cycle), endpoint, k.trs, w.clock(s.ticks), w.clock(k.ticks))
    requires SkipKeeps(s.trs, Queue(s.cycle), endpoint, k.kept)
    requires Timed(cfg, w, s) && s.ticks <= k.ticks
    ensures Timed(cfg, w, Trip(cfg, w, s, endpoint))
  {
    var r := Trip(cfg, w, s, endpoint);
    TripReplayable(cfg, s.trs, s.ledger, s.cycle, s.history, endpoint, k.trs, w.clock(s.ticks), w.clock(k.ticks), k.kept);
    TripSpaced(cfg, s.trs, s.history, Queue(s.cycle), endpoint, k.trs, w.clock(s.ticks), w.clock(k.ticks));
  }

  lemma TripReplayable(cfg: Config, trs: map<nat, Tr>, l: Ledger, c: Cycle, h: History, endpoint: string,
        trs': map<nat, Tr>, from: int, to: int, kept: seq<nat>)
    requires c.toFlush.Some? && Replayable(cfg, trs, l, c) && Past(from, trs, l, c, h) && from <= to
    requires SkipRecomputes(cfg, trs, Queue(c), endpoint, trs', from, to) && SkipKeeps(trs, Queue(c), endpoint, kept)
    ensures Replayable(cfg, trs', l, c.(toFlush := Some(kept))) && Past(to, trs', l, c.(toFlush := Some(kept)), h)
  {
    var c' := c.(toFlush := Some(kept));
    assert forall x :: Live(l, c', x) ==> Live(l, c, x);
    forall x | Live(l, c', x)
      ensures Recomputed(cfg, At(trs', x)) && (At(trs', x).backoffAt.Some? ==> At(trs', x).backoffAt.value <= to)
    {
      if x in Queue(c) && At(trs, x).endpoint == endpoint {
        assert PutOff(cfg, At(trs, x), At(trs', x), from, to);
      } else {
        assert At(trs', x) == At(trs, x);
      }
    }
    assert forall x :: x in kept ==> At(trs', x) == At(trs, x);
  }

  lemma TripSpaced(cfg: Config, trs: map<nat, Tr>, h: History, q: seq<nat>, endpoint: string, trs': map<nat, Tr>,
        from: int, to: int)
    requires Spaced(cfg, trs, h) && (forall f :: f in h.failures ==> f.at <= from)
    requires SkipRecomputes(cfg, trs, q, endpoint, trs', from, to)
    ensures Spaced(cfg, trs', h)
  {
    assert forall x :: At(trs', x).errors == At(trs, x).errors;
    forall f | f in h.failures ensures NotBefore(cfg, f) < At(trs', f.id).nextFlush {
      if f.id in q && At(trs, f.id).endpoint == endpoint {
        var at := At(trs', f.id).backoffAt.value;
        WholeSecondBounds(at + Delay(cfg, At(trs, f.id).errors));
        DelayMonotone(cfg, f.errors, At(trs, f.id).errors);
      }
    }
  }

  lemma TrErrorKeeps(cfg: Config, w: World, s: State, id: nat)
    requires Nondecreasing(w) && Inv(cfg, w, s) && id in s.cycle.inFlight
    ensures Inv(cfg, w, TrError(cfg, w, s, id))
  {
    var c := Charge(cfg, w, s, id);
    ChargeKeeps(cfg, w, s, id);
    var endpoint := At(s.trs, id).endpoint;
    if EndpointErrors(c.cycle, endpoint) == cfg.maxEndpointErrors {
      TripKeeps(cfg, w, c, endpoint);
    }
  }
}
