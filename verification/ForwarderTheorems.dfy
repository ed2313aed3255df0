/** What the forwarder guarantees over every run, and where it does not. */
module ForwarderTheorems {
  import opened Prelude
  import opened Sorting
  import opened Forwarder
  import opened ForwarderLedger
  import opened ForwarderInvariants
  import opened ForwarderSteps

  /** Some run of a new manager leads to this state. */
  ghost predicate Reachable(cfg: Config, w: World, s: State) {
    exists events :: Run(cfg, w, Initial(w), events) == s
  }

  lemma ReachableKeeps(cfg: Config, w: World, s: State)
    requires Nondecreasing(w) && Reachable(cfg, w, s)
    ensures Inv(cfg, w, s)
  {
    hide Inv, Run, Initial;
    var events :| Run(cfg, w, Initial(w), events) == s;
    RunKeeps(cfg, w, events);
  }

  // ---------- accounting and flight ----------

  /** Nothing is lost: received = queued + flushed + evicted, whatever the run. */
  lemma ReceivedIsAccountedFor(cfg: Config, w: World, s: State)
    requires Nondecreasing(w) && Reachable(cfg, w, s)
    ensures var l := s.ledger;
      && l.received == |l.transactions| + l.flushed + |l.evicted|
      && l.totalCount == |l.transactions|
      && l.totalSize == SumSizes(s.trs, l.transactions)
      && l.rejected <= l.flushed
      && Ascending(l.transactions) && (forall id :: id in l.transactions ==> id <= l.counter)
  {
    ReachableKeeps(cfg, w, s);
  }

  /** `tr_error` never iterates `None`, and parallelism is respected. */
  lemma InFlightIsBounded(cfg: Config, w: World, s: State)
    requires Nondecreasing(w) && Reachable(cfg, w, s)
    ensures var c := s.cycle;
      && c.running == |c.inFlight| <= cfg.maxParallelism
      && (c.toFlush.None? ==> c.inFlight == {})
      && (forall id :: id in Queue(c) ==> id !in c.inFlight)
  {
    ReachableKeeps(cfg, w, s);
  }

  /** Within a flush: fewest errors first, then newest first, nothing twice. */
  lemma DispatchOrder(cfg: Config, w: World, s: State, k: nat, m: nat)
    requires Nondecreasing(w) && Reachable(cfg, w, s)
    requires s.history.first <= k < m < |s.history.log|
    ensures var log := s.history.log;
      && log[k].id != log[m].id
      && (log[k].errors < log[m].errors || (log[k].errors == log[m].errors && log[k].id > log[m].id))
  {
    ReachableKeeps(cfg, w, s);
  }

  // ---------- circuit breaker ----------

  lemma EndpointErrorsAreBounded(cfg: Config, w: World, s: State, endpoint: string)
    requires Nondecreasing(w) && Reachable(cfg, w, s) && cfg.maxEndpointErrors >= 1 && cfg.maxParallelism >= 1
    ensures EndpointErrors(s.cycle, endpoint) + |InFlightOf(s.trs, s.cycle.inFlight, endpoint)|
            <= cfg.maxEndpointErrors + cfg.maxParallelism - 1
    ensures EndpointErrors(s.cycle, endpoint) >= cfg.maxEndpointErrors ==>
              forall id :: id in Queue(s.cycle) ==> At(s.trs, id).endpoint != endpoint
  {
    ReachableKeeps(cfg, w, s);
  }

  /** While a flush is in progress its queue only shrinks and dispatches come from it. */
  ghost predicate DrawsFrom(s: State, s': State) {
    && (forall id :: id in Queue(s'.cycle) ==> id in Queue(s.cycle))
    && s.history.log <= s'.history.log
    && (forall k :: |s.history.log| <= k < |s'.history.log| ==> s'.history.log[k].id in Queue(s.cycle))
    && (forall id :: id in s.trs ==> id in s'.trs && At(s'.trs, id).endpoint == At(s.trs, id).endpoint)
  }

  lemma DrawsFromTransitive(s: State, t: State, u: State)
    requires DrawsFrom(s, t) && DrawsFrom(t, u)
    ensures DrawsFrom(s, u)
  {
  }

  lemma ChargeDraws(cfg: Config, w: World, s: State, id: nat)
    requires id in s.trs
    ensures DrawsFrom(s, Charge(cfg, w, s, id))
  {
  }

  lemma TripDraws(cfg: Config, w: World, s: State, endpoint: string)
    requires Nondecreasing(w) && Registered(s.trs, s.ledger, s.cycle, s.history) && NoDuplicates(Queue(s.cycle))
    requires QueueSorted(s.trs, Queue(s.cycle))
    ensures DrawsFrom(s, Trip(cfg, w, s, endpoint))
  {
    SkipEffect(cfg, w, s.trs, s.ticks, Queue(s.cycle), endpoint);
    SkipKept(cfg, w, s.trs, s.ticks, Queue(s.cycle), endpoint);
    hide SkipEndpoint;
  }

  lemma TrErrorDraws(cfg: Config, w: World, s: State, id: nat)
    requires Nondecreasing(w) && Inv(cfg, w, s) && id in s.cycle.inFlight
    ensures DrawsFrom(s, TrError(cfg, w, s, id))
  {
    var c := Charge(cfg, w, s, id);
    ChargeFlight(cfg, w, s, id);
    ChargeOrder(cfg, w, s, id);
    ChargeDraws(cfg, w, s, id);
    TripDraws(cfg, w, c, At(s.trs, id).endpoint);
    hide Charge, Trip, DrawsFrom, Inv;
    DrawsFromTransitive(s, c, Trip(cfg, w, c, At(s.trs, id).endpoint));
  }

  lemma LaunchedDraws(w: World, s: State, checked: int, paced: int)
    requires Queue(s.cycle) != []
    ensures DrawsFrom(s, Launched(w, s, checked, paced))
    ensures Queue(s.cycle)[|Queue(s.cycle)| - 1] in Launched(w, s, checked, paced).cycle.inFlight
  {
  }

  lemma LaunchDraws(cfg: Config, w: World, s: State, checked: int, paced: int)
    requires Nondecreasing(w) && Inv(cfg, w, s) && MayLaunch(cfg, w, s, checked, paced)
    ensures DrawsFrom(s, Launch(cfg, w, s, checked, paced))
  {
    var q := Queue(s.cycle);
    var l := Launched(w, s, checked, paced);
    LaunchedDraws(w, s, checked, paced);
    if w.raises(s.sends) {
      LaunchedKeeps(cfg, w, s, checked, paced);
      TrErrorDraws(cfg, w, l, q[|q| - 1]);
      DrawsFromTransitive(s, l, TrError(cfg, w, l, q[|q| - 1]));
    }
  }

  lemma {:induction false} FlushNextDraws(cfg: Config, w: World, s: State)
    requires Nondecreasing(w) && Inv(cfg, w, s)
    ensures DrawsFrom(s, FlushNext(cfg, w, s))
    decreases |Queue(s.cycle)|
  {
    TurnDraws(cfg, w, s);
    TurnKeeps(cfg, w, s);
    var turn := FlushTurn(cfg, w, s);
    if turn.Again? {
      FlushNextDraws(cfg, w, turn.state);
      DrawsFromTransitive(s, turn.state, FlushNext(cfg, w, turn.state));
    }
  }

  lemma TurnDraws(cfg: Config, w: World, s: State)
    requires Nondecreasing(w) && Inv(cfg, w, s)
    ensures DrawsFrom(s, FlushTurn(cfg, w, s).state)
  {
    if Queue(s.cycle) != [] && Now(w, s) - s.cycle.flushTime < MAX_FLUSH_DURATION
       && s.cycle.lastFlush + cfg.throttlingDelay <= Now(w, Tick(s)) && s.cycle.running < cfg.maxParallelism {
      GuardPermitsLaunch(cfg, w, s);
      LaunchDraws(cfg, w, Tick(Tick(s)), Now(w, s), Now(w, Tick(s)));
      assert DrawsFrom(s, Tick(Tick(s)));
      DrawsFromTransitive(s, Tick(Tick(s)), Launch(cfg, w, Tick(Tick(s)), Now(w, s), Now(w, Tick(s))));
    }
  }

  lemma CompleteDraws(cfg: Config, w: World, s: State, id: nat, outcome: Outcome)
    requires Nondecreasing(w) && Inv(cfg, w, s) && id in s.cycle.inFlight
    ensures DrawsFrom(s, Complete(cfg, w, s, id, outcome).0)
  {
    hide Inv, TrError, RemoveFirst;
    InFlightFacts(cfg, w, s, id);
    if outcome.Failed? { TrErrorDraws(cfg, w, s, id); }
  }

  lemma ResponseDraws(cfg: Config, w: World, s: State, id: nat, outcome: Outcome)
    requires Nondecreasing(w) && Inv(cfg, w, s) && id in s.cycle.inFlight
    ensures DrawsFrom(s, Respond(cfg, w, s, id, outcome))
  {
    var c := Complete(cfg, w, s, id, outcome);
    CompleteDraws(cfg, w, s, id, outcome);
    if c.1 {
      CompleteKeeps(cfg, w, s, id, outcome);
      FlushNextDraws(cfg, w, c.0);
      DrawsFromTransitive(s, c.0, FlushNext(cfg, w, c.0));
    }
  }

  lemma StepDraws(cfg: Config, w: World, s: State, e: Event)
    requires Nondecreasing(w) && Inv(cfg, w, s) && s.cycle.toFlush.Some?
    ensures DrawsFrom(s, Step(cfg, w, s, e))
  {
    if Enabled(s, e) {
      match e
      case ClockRead =>
      case Appended(_, _, _) =>
      case Flushed =>
      case TimerFired => FlushNextDraws(cfg, w, Fire(s));
      case Responded(id, outcome) => ResponseDraws(cfg, w, s, id, outcome);
    }
  }

  /** The flush that is in progress in `s` is still the one in progress before each of `events`. */
  ghost predicate SameFlush(cfg: Config, w: World, s: State, events: seq<Event>) {
    forall n :: 0 <= n < |events| ==> Run(cfg, w, s, events[..n]).cycle.toFlush.Some?
  }

  /** Once an endpoint has reached the threshold, the rest of that flush sends it nothing. */
  lemma TrippedEndpointStaysOut(cfg: Config, w: World, s: State, endpoint: string, events: seq<Event>, k: nat)
    requires Nondecreasing(w) && Reachable(cfg, w, s) && cfg.maxEndpointErrors >= 1
    requires EndpointErrors(s.cycle, endpoint) >= cfg.maxEndpointErrors
    requires SameFlush(cfg, w, s, events)
    ensures var r := Run(cfg, w, s, events);
      |s.history.log| <= k < |r.history.log| ==> At(r.trs, r.history.log[k].id).endpoint != endpoint
  {
    hide Reachable, Run, Initial, SameFlush;
    ReachableKeeps(cfg, w, s);
    RunDraws(cfg, w, s, events);
  }

  lemma {:induction false} RunDraws(cfg: Config, w: World, s: State, events: seq<Event>)
    requires Nondecreasing(w) && Inv(cfg, w, s) && SameFlush(cfg, w, s, events)
    ensures DrawsFrom(s, Run(cfg, w, s, events)) && Inv(cfg, w, Run(cfg, w, s, events))
    decreases |events|
  {
    if events != [] {
      var n := |events| - 1;
      assert forall m :: 0 <= m < n ==> events[..n][..m] == events[..m];
      RunDraws(cfg, w, s, events[..n]);
      var before := Run(cfg, w, s, events[..n]);
      StepDraws(cfg, w, before, events[n]);
      StepKeeps(cfg, w, before, events[n]);
      DrawsFromTransitive(s, before, Step(cfg, w, before, events[n]));
    }
  }

  // ---------- throttling and the cut-off ----------

  lemma {:induction false} Apart(cfg: Config, c: Cycle, h: History, k: nat, m: nat)
    requires Throttled(cfg, c, h) && k <= m < |h.log|
    ensures h.log[k].at + (m - k) * cfg.throttlingDelay <= h.log[m].at
    decreases m - k
  {
    if k < m {
      Apart(cfg, c, h, k, m - 1);
      assert h.log[m - 1].at + cfg.throttlingDelay <= h.log[m - 1 + 1].paced && InOrder(h.log[m]);
      assert (m - k) * cfg.throttlingDelay == (m - 1 - k) * cfg.throttlingDelay + cfg.throttlingDelay;
    }
  }

  /** Any two dispatches of a run are apart by the throttling delay per dispatch between them. */
  lemma DispatchesAreThrottled(cfg: Config, w: World, s: State, k: nat, m: nat)
    requires Nondecreasing(w) && Reachable(cfg, w, s)
    requires k <= m < |s.history.log|
    ensures s.history.log[k].at + (m - k) * cfg.throttlingDelay <= s.history.log[m].at
  {
    hide Reachable, Inv;
    ReachableKeeps(cfg, w, s);
    ThrottledAlways(cfg, w, s);
    Apart(cfg, s.cycle, s.history, k, m);
  }

  /** n dispatches, one delay apart, within a span of time. */
  predicate FitsWithin(cfg: Config, n: int, span: int) { (n - 1) * cfg.throttlingDelay < span }

  /** Number of dispatches of the current flush. */
  function DispatchCount(h: History): int { |h.log| - h.first }

  /** How far apart the two tests of `flush_next` read the clock before this dispatch. */
  function Gap(d: Dispatch): int { d.paced - d.checked }

  lemma CountWithin(cfg: Config, c: Cycle, h: History, n: nat, span: int)
    requires Throttled(cfg, c, h) && h.first <= |h.log| && 1 <= n <= DispatchCount(h)
    requires h.log[h.first + n - 1].at < c.flushTime + span
    ensures FitsWithin(cfg, n, span)
  {
    Apart(cfg, c, h, h.first, h.first + n - 1);
    assert c.flushTime <= h.log[h.first].checked && InOrder(h.log[h.first]);
  }

  /** The last dispatch passed the throttle test, at most its gap after the cut-off test. */
  lemma CountWithinGap(cfg: Config, c: Cycle, h: History, n: nat)
    requires Throttled(cfg, c, h) && h.first <= |h.log| && 1 <= n == DispatchCount(h)
    ensures FitsWithin(cfg, n, MAX_FLUSH_DURATION + Gap(h.log[|h.log| - 1]))
  {
    var m := |h.log| - 1;
    var last := h.log[m];
    assert last.checked < c.flushTime + MAX_FLUSH_DURATION && InOrder(last);
    if n >= 2 {
      Apart(cfg, c, h, h.first, m - 1);
      assert h.log[m - 1].at + cfg.throttlingDelay <= h.log[m - 1 + 1].paced;
      assert c.flushTime <= h.log[h.first].checked && InOrder(h.log[h.first]);
      assert (n - 1) * cfg.throttlingDelay == (n - 2) * cfg.throttlingDelay + cfg.throttlingDelay;
    }
  }

  lemma ThrottledAlways(cfg: Config, w: World, s: State)
    requires Inv(cfg, w, s)
    ensures Throttled(cfg, s.cycle, s.history) && s.history.first <= |s.history.log|
  {
    hide Throttled;
  }

  lemma AllButTheLast(cfg: Config, c: Cycle, h: History)
    requires Throttled(cfg, c, h) && DispatchCount(h) >= 2
    ensures h.log[|h.log| - 2].at < c.flushTime + MAX_FLUSH_DURATION
  {
    assert h.log[|h.log| - 2].at <= h.log[|h.log| - 2 + 1].checked;
  }

  /** The last dispatch of the current flush was stamped before its cut-off. */
  predicate StampedInTime(s: State)
    requires s.history.log != []
  {
    s.history.log[|s.history.log| - 1].at < s.cycle.flushTime + MAX_FLUSH_DURATION
  }

  /** At the throttled pace, all dispatches of a flush but the last fit into the cut-off,
      all of them fit when the last is stamped before it, and all of them fit in any case
      into the cut-off and the gap between the two readings before the last. */
  lemma FlushIsShort(cfg: Config, w: World, s: State)
    requires Nondecreasing(w) && Reachable(cfg, w, s)
    ensures var n := DispatchCount(s.history);
      && (n >= 2 ==> FitsWithin(cfg, n - 1, MAX_FLUSH_DURATION))
      && (n >= 1 && StampedInTime(s) ==> FitsWithin(cfg, n, MAX_FLUSH_DURATION))
      && (n >= 1 ==> FitsWithin(cfg, n, MAX_FLUSH_DURATION + Gap(s.history.log[|s.history.log| - 1])))
  {
    hide Reachable, Inv, Throttled, FitsWithin;
    ReachableKeeps(cfg, w, s);
    ThrottledAlways(cfg, w, s);
    var n := DispatchCount(s.history);
    if n >= 2 {
      AllButTheLast(cfg, s.cycle, s.history);
      CountWithin(cfg, s.cycle, s.history, n - 1, MAX_FLUSH_DURATION);
    }
    if n >= 1 {
      CountWithinGap(cfg, s.cycle, s.history, n);
      if StampedInTime(s) { CountWithin(cfg, s.cycle, s.history, n, MAX_FLUSH_DURATION); }
    }
  }

  function CeilDiv(a: int, b: nat): int
    requires b > 0
  {
    (a + b - 1) / b
  }

  lemma CeilDivMeans(a: int, b: nat, n: int)
    requires b > 0
    ensures CeilDiv(a, b) <= n <==> a <= n * b
  {
    var q := CeilDiv(a, b);
    assert a + b - 1 == q * b + (a + b - 1) % b;
    assert (q - 1) * b == q * b - b;
    if q <= n { ScaleMonotone(q, n, b); } else { ScaleMonotone(n, q - 1, b); }
  }

  lemma FitsMeansCeil(n: int, t: int, d: int)
    requires t > 0 && (n - 1) * t < d
    ensures n <= CeilDiv(d, t)
  {
    CeilDivMeans(d, t, n - 1);
  }

  lemma ScaleMonotone(a: int, b: int, t: int)
    requires a <= b && 0 <= t
    ensures a * t <= b * t
  {
  }

  /** With a positive delay, one flush dispatches at most ceil(duration / delay) + 1
      transactions, and at most ceil((duration + gap) / delay), where the gap is that
      between the two readings before the last dispatch: zero when one reading serves
      for both tests. It dispatches at most ceil(duration / delay) too when the last
      dispatch is stamped before the cut-off. */
  lemma FlushBound(cfg: Config, w: World, s: State)
    requires Nondecreasing(w) && Reachable(cfg, w, s) && cfg.throttlingDelay > 0
    ensures var n, most := DispatchCount(s.history), CeilDiv(MAX_FLUSH_DURATION, cfg.throttlingDelay);
      && n <= most + 1
      && (n >= 1 ==> n <= CeilDiv(MAX_FLUSH_DURATION + Gap(s.history.log[|s.history.log| - 1]), cfg.throttlingDelay))
      && (n >= 1 && StampedInTime(s) ==> n <= most)
  {
    hide Reachable, CeilDiv, Gap;
    FlushIsShort(cfg, w, s);
    var n, t := DispatchCount(s.history), cfg.throttlingDelay;
    if n >= 2 {
      FitsMeansCeil(n - 1, t, MAX_FLUSH_DURATION);
    } else {
      CeilDivMeans(MAX_FLUSH_DURATION, t, 0);
    }
    if n >= 1 {
      FitsMeansCeil(n, t, MAX_FLUSH_DURATION + Gap(s.history.log[|s.history.log| - 1]));
      if StampedInTime(s) { FitsMeansCeil(n, t, MAX_FLUSH_DURATION); }
    }
  }

  // ---------- back-off ----------

  function Min(a: int, b: int): int { if a <= b then a else b }

  /** After its e-th error at time t a transaction is not sent again before
      t + min(20 e s, max) - 1 s. */
  lemma ReplaysAreSpaced(cfg: Config, w: World, s: State, f: Failure, d: Dispatch)
    requires Nondecreasing(w) && Reachable(cfg, w, s)
    requires f in s.history.failures && d in s.history.log && d.id == f.id && d.errors >= f.errors
    ensures f.at + Min(20 * f.errors * SECOND, cfg.maxWaitForReplay) - SECOND < d.at
  {
    ReachableKeeps(cfg, w, s);
  }

  /** It becomes eligible no later than the latest recompute plus the delay. */
  lemma BecomesEligible(cfg: Config, w: World, s: State, id: nat)
    requires Nondecreasing(w) && Reachable(cfg, w, s) && id in s.ledger.transactions
    ensures var tr := At(s.trs, id);
      tr.errors > 0 ==>
        && tr.backoffAt.Some?
        && tr.backoffAt.value + Min(20 * tr.errors * SECOND, cfg.maxWaitForReplay) - SECOND < tr.nextFlush
        && tr.nextFlush <= tr.backoffAt.value + Min(20 * tr.errors * SECOND, cfg.maxWaitForReplay)
  {
    hide Reachable;
    ReachableKeeps(cfg, w, s);
    var tr := At(s.trs, id);
    assert Live(s.ledger, s.cycle, id);
    if tr.errors > 0 { WholeSecondBounds(tr.backoffAt.value + Delay(cfg, tr.errors)); }
  }

  lemma RecomputeEarlierIff(cfg: Config, tr: Tr, now: int)
    requires Recomputed(cfg, tr) && (tr.backoffAt.Some? ==> tr.backoffAt.value <= now) && tr.nextFlush <= now
    ensures Backoff(cfg, tr, now).nextFlush < tr.nextFlush <==> tr.backoffAt.None? && now / SECOND * SECOND < tr.created
    ensures tr.nextFlush - Backoff(cfg, tr, now).nextFlush < SECOND
  {
    WholeSecondBounds(now + Delay(cfg, tr.errors));
    if tr.backoffAt.Some? {
      WholeSecondMonotone(tr.backoffAt.value + Delay(cfg, tr.errors), now + Delay(cfg, tr.errors));
    }
  }

  /** The breaker's recompute of a queued transaction never moves it earlier, except
      exactly when it was never put off before and was created within the second of the
      recompute, after that second began; even then by less than a second. */
  lemma SkippingMovesEarlierIff(cfg: Config, w: World, s: State, id: nat, now: int)
    requires Nondecreasing(w) && Reachable(cfg, w, s) && id in Queue(s.cycle) && Now(w, s) <= now
    ensures var tr := At(s.trs, id);
      && (Backoff(cfg, tr, now).nextFlush < tr.nextFlush <==> tr.backoffAt.None? && now / SECOND * SECOND < tr.created)
      && tr.nextFlush - Backoff(cfg, tr, now).nextFlush < SECOND
  {
    hide Reachable, Backoff;
    ReachableKeeps(cfg, w, s);
    assert Live(s.ledger, s.cycle, id) && s.cycle.toFlush.Some?;
    RecomputeEarlierIff(cfg, At(s.trs, id), now);
  }
}
