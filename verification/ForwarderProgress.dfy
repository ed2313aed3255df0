/** What a flush does rather than avoids: it takes up everything that is due and drops
    nothing without a reason. */
module ForwarderProgress {
  import opened Prelude
  import opened Sorting
  import opened Forwarder
  import opened ForwarderLedger
  import opened ForwarderInvariants
  import opened ForwarderSteps
  import opened ForwarderTheorems

  // ---------- one flush, stretch by stretch ----------

  /** How many of these failures were of transactions of this endpoint. */
  function FailureCount(trs: map<nat, Tr>, failures: seq<Failure>, endpoint: string): nat
    decreases |failures|
  {
    if failures == [] then 0
    else
      var n := |failures| - 1;
      FailureCount(trs, failures[..n], endpoint) + if At(trs, failures[n].id).endpoint == endpoint then 1 else 0
  }

  lemma {:induction false} CountJoin(trs: map<nat, Tr>, a: seq<Failure>, b: seq<Failure>, endpoint: string)
    ensures FailureCount(trs, a + b, endpoint) == FailureCount(trs, a, endpoint) + FailureCount(trs, b, endpoint)
    decreases |b|
  {
    if b == [] {
      assert a + b == a;
    } else {
      var n := |b| - 1;
      CountJoin(trs, a, b[..n], endpoint);
      assert (a + b)[..|a| + n] == a + b[..n];
    }
  }

  lemma {:induction false} CountSame(trs: map<nat, Tr>, trs': map<nat, Tr>, failures: seq<Failure>, endpoint: string)
    requires forall k :: 0 <= k < |failures| ==> At(trs, failures[k].id).endpoint == At(trs', failures[k].id).endpoint
    ensures FailureCount(trs, failures, endpoint) == FailureCount(trs', failures, endpoint)
    decreases |failures|
  {
    if failures != [] { CountSame(trs, trs', failures[..|failures| - 1], endpoint); }
  }

  /** Between `s` and `t` it is the same flush, and time goes on. */
  ghost predicate SameOpening(s: State, t: State) {
    && t.cycle.flushTime == s.cycle.flushTime && t.history.first == s.history.first
    && t.history.firstFailure == s.history.firstFailure && s.ticks <= t.ticks
    && s.history.failures <= t.history.failures
    && (forall k :: |s.history.failures| <= k < |t.history.failures| ==> t.history.failures[k].id in t.trs)
  }

  /** An endpoint is charged for every failure, and for nothing else. */
  ghost predicate ChargedAsFailed(s: State, t: State) {
    |s.history.failures| <= |t.history.failures| &&
    forall e :: EndpointErrors(t.cycle, e) ==
                EndpointErrors(s.cycle, e) + FailureCount(t.trs, t.history.failures[|s.history.failures|..], e)
  }

  predicate BreakerOpen(cfg: Config, t: State, id: nat) {
    1 <= cfg.maxEndpointErrors <= EndpointErrors(t.cycle, At(t.trs, id).endpoint)
  }

  predicate PastCutOff(w: World, t: State) {
    Queue(t.cycle) == [] && t.cycle.flushTime + MAX_FLUSH_DURATION <= Now(w, t)
  }

  ghost predicate LoggedSince(h: History, from: nat, id: nat) {
    exists k :: from <= k < |h.log| && h.log[k].id == id
  }

  /** What may become of a queued transaction: it is still queued, it was dispatched, its
      endpoint is down, or the flush has run past the cut-off. */
  ghost predicate Handled(cfg: Config, w: World, from: nat, t: State, id: nat) {
    id in Queue(t.cycle) || LoggedSince(t.history, from, id) || BreakerOpen(cfg, t, id) || PastCutOff(w, t)
  }

  ghost predicate NothingSkipped(cfg: Config, w: World, s: State, t: State) {
    forall id :: id in Queue(s.cycle) ==> Handled(cfg, w, |s.history.log|, t, id)
  }

  ghost predicate Continues(cfg: Config, w: World, s: State, t: State) {
    DrawsFrom(s, t) && SameOpening(s, t) && ChargedAsFailed(s, t) && NothingSkipped(cfg, w, s, t)
  }

  lemma ContinuesTransitive(cfg: Config, w: World, s: State, t: State, u: State)
    requires Nondecreasing(w) && Registered(s.trs, s.ledger, s.cycle, s.history)
    requires Continues(cfg, w, s, t) && Continues(cfg, w, t, u)
    ensures Continues(cfg, w, s, u)
  {
    hide DrawsFrom, SameOpening, ChargedAsFailed, NothingSkipped, Registered;
    DrawsFromTransitive(s, t, u);
    OpeningTransitive(s, t, u);
    ChargesTransitive(s, t, u);
    SkipsTransitive(cfg, w, s, t, u);
  }

  lemma OpeningTransitive(s: State, t: State, u: State)
    requires SameOpening(s, t) && SameOpening(t, u) && DrawsFrom(t, u)
    ensures SameOpening(s, u)
  {
    forall k | |s.history.failures| <= k < |u.history.failures| ensures u.history.failures[k].id in u.trs {
      if k < |t.history.failures| { assert t.history.failures[k] == u.history.failures[k]; }
    }
  }

  lemma ChargesTransitive(s: State, t: State, u: State)
    requires ChargedAsFailed(s, t) && ChargedAsFailed(t, u) && SameOpening(s, t) && SameOpening(t, u) && DrawsFrom(t, u)
    ensures ChargedAsFailed(s, u)
  {
    hide FailureCount, EndpointErrors;
    var a, b := t.history.failures[|s.history.failures|..], u.history.failures[|t.history.failures|..];
    assert u.history.failures[|s.history.failures|..] == a + b;
    forall e
      ensures EndpointErrors(u.cycle, e) ==
              EndpointErrors(s.cycle, e) + FailureCount(u.trs, u.history.failures[|s.history.failures|..], e)
    {
      CountJoin(u.trs, a, b, e);
      forall k | 0 <= k < |a| ensures At(t.trs, a[k].id).endpoint == At(u.trs, a[k].id).endpoint {
        assert a[k] == t.history.failures[|s.history.failures| + k];
      }
      CountSame(t.trs, u.trs, a, e);
    }
  }

  lemma SkipsTransitive(cfg: Config, w: World, s: State, t: State, u: State)
    requires Nondecreasing(w) && Registered(s.trs, s.ledger, s.cycle, s.history)
    requires NothingSkipped(cfg, w, s, t) && NothingSkipped(cfg, w, t, u)
    requires DrawsFrom(s, t) && DrawsFrom(t, u) && SameOpening(t, u) && ChargedAsFailed(t, u)
    ensures NothingSkipped(cfg, w, s, u)
  {
    hide FailureCount, EndpointErrors;
    forall id | id in Queue(s.cycle) ensures Handled(cfg, w, |s.history.log|, u, id) {
      assert Handled(cfg, w, |s.history.log|, t, id) && id in s.trs && id in t.trs;
      if id in Queue(t.cycle) {
        assert Handled(cfg, w, |t.history.log|, u, id);
      } else if LoggedSince(t.history, |s.history.log|, id) {
        var k :| |s.history.log| <= k < |t.history.log| && t.history.log[k].id == id;
        assert u.history.log[k].id == id;
      } else if PastCutOff(w, t) {
        HeadIsMember(Queue(u.cycle));
      }
    }
  }

  lemma HeadIsMember(q: seq<nat>)
    ensures q != [] ==> q[0] in q
  {
  }

  /** Steps that touch neither the queue nor the history. */
  lemma BareContinues(cfg: Config, w: World, s: State, t: State)
    requires t.history == s.history && Queue(t.cycle) == Queue(s.cycle) && t.cycle.endpointErrors == s.cycle.endpointErrors
    requires t.cycle.flushTime == s.cycle.flushTime && s.ticks <= t.ticks
    requires forall id :: id in s.trs ==> id in t.trs && At(t.trs, id).endpoint == At(s.trs, id).endpoint
    ensures Continues(cfg, w, s, t)
  {
    assert t.history.failures[|s.history.failures|..] == [];
  }

  lemma CutOffContinues(cfg: Config, w: World, s: State)
    requires Nondecreasing(w) && s.cycle.flushTime + MAX_FLUSH_DURATION <= Now(w, s)
    ensures Continues(cfg, w, s, CutOff(Tick(s)))
  {
    var t := CutOff(Tick(s));
    assert Now(w, s) <= Now(w, t);
    assert t.history.failures[|s.history.failures|..] == [];
    assert forall e :: EndpointErrors(t.cycle, e) == EndpointErrors(s.cycle, e);
  }

  lemma ChargeContinues(cfg: Config, w: World, s: State, id: nat)
    requires id in s.trs
    ensures Continues(cfg, w, s, Charge(cfg, w, s, id))
  {
    hide Delay, WholeSecond;
    var t := Charge(cfg, w, s, id);
    ChargeDraws(cfg, w, s, id);
    var f := Failure(id, At(s.trs, id).errors + 1, Now(w, s));
    assert t.history.failures[|s.history.failures|..] == [f] && [f][..0] == [];
    forall e ensures EndpointErrors(t.cycle, e) == EndpointErrors(s.cycle, e) + FailureCount(t.trs, [f], e) {
      assert FailureCount(t.trs, [f], e) == FailureCount(t.trs, [f][..0], e) + if At(t.trs, id).endpoint == e then 1 else 0;
    }
  }

  lemma TripContinues(cfg: Config, w: World, s: State, endpoint: string)
    requires Nondecreasing(w) && Registered(s.trs, s.ledger, s.cycle, s.history) && NoDuplicates(Queue(s.cycle))
    requires QueueSorted(s.trs, Queue(s.cycle)) && 1 <= cfg.maxEndpointErrors <= EndpointErrors(s.cycle, endpoint)
    ensures Continues(cfg, w, s, Trip(cfg, w, s, endpoint))
  {
    hide SkipEndpoint, QueueSorted, NoDuplicates;
    var t := Trip(cfg, w, s, endpoint);
    SkipEffect(cfg, w, s.trs, s.ticks, Queue(s.cycle), endpoint);
    SkipKept(cfg, w, s.trs, s.ticks, Queue(s.cycle), endpoint);
    TripDraws(cfg, w, s, endpoint);
    assert t.history.failures[|s.history.failures|..] == [];
    assert forall e :: EndpointErrors(t.cycle, e) == EndpointErrors(s.cycle, e);
  }

  lemma TrErrorContinues(cfg: Config, w: World, s: State, id: nat)
    requires Nondecreasing(w) && Inv(cfg, w, s) && id in s.cycle.inFlight
    ensures Continues(cfg, w, s, TrError(cfg, w, s, id))
  {
    hide Charge, Trip, Continues, Inv;
    InFlightFacts(cfg, w, s, id);
    var c, endpoint := Charge(cfg, w, s, id), At(s.trs, id).endpoint;
    ChargedFacts(cfg, w, s, id);
    ChargeContinues(cfg, w, s, id);
    if EndpointErrors(c.cycle, endpoint) == cfg.maxEndpointErrors {
      TripContinues(cfg, w, c, endpoint);
      ContinuesTransitive(cfg, w, s, c, Trip(cfg, w, c, endpoint));
    }
  }

  lemma ChargedFacts(cfg: Config, w: World, s: State, id: nat)
    requires Inv(cfg, w, s) && id in s.cycle.inFlight
    ensures var c := Charge(cfg, w, s, id);
      && Registered(s.trs, s.ledger, s.cycle, s.history)
      && Registered(c.trs, c.ledger, c.cycle, c.history) && NoDuplicates(Queue(c.cycle)) && QueueSorted(c.trs, Queue(c.cycle))
      && 1 <= EndpointErrors(c.cycle, At(s.trs, id).endpoint)
  {
    ChargeFlight(cfg, w, s, id);
    ChargeOrder(cfg, w, s, id);
  }

  lemma LaunchedContinues(cfg: Config, w: World, s: State, checked: int, paced: int)
    requires Queue(s.cycle) != []
    ensures Continues(cfg, w, s, Launched(w, s, checked, paced))
  {
    var q, t := Queue(s.cycle), Launched(w, s, checked, paced);
    LaunchedDraws(w, s, checked, paced);
    assert t.history.failures[|s.history.failures|..] == [];
    assert forall e :: EndpointErrors(t.cycle, e) == EndpointErrors(s.cycle, e);
    forall id | id in q ensures Handled(cfg, w, |s.history.log|, t, id) {
      if id == q[|q| - 1] {
        assert t.history.log[|s.history.log|].id == id;
      } else {
        assert q == q[..|q| - 1] + [q[|q| - 1]];
      }
    }
  }

  lemma InvRegisters(cfg: Config, w: World, s: State)
    requires Inv(cfg, w, s)
    ensures Registered(s.trs, s.ledger, s.cycle, s.history)
  {
  }

  lemma LaunchContinues(cfg: Config, w: World, s: State, checked: int, paced: int)
    requires Nondecreasing(w) && Inv(cfg, w, s) && MayLaunch(cfg, w, s, checked, paced)
    ensures Continues(cfg, w, s, Launch(cfg, w, s, checked, paced))
  {
    hide Inv, Continues, TrError;
    InvRegisters(cfg, w, s);
    var q := Queue(s.cycle);
    var l := Launched(w, s, checked, paced);
    LaunchedContinues(cfg, w, s, checked, paced);
    if w.raises(s.sends) {
      LaunchedKeeps(cfg, w, s, checked, paced);
      TrErrorContinues(cfg, w, l, q[|q| - 1]);
      ContinuesTransitive(cfg, w, s, l, TrError(cfg, w, l, q[|q| - 1]));
    }
  }

  lemma TurnContinues(cfg: Config, w: World, s: State)
    requires Nondecreasing(w) && Inv(cfg, w, s)
    ensures Continues(cfg, w, s, FlushTurn(cfg, w, s).state)
  {
    hide Inv, Continues, Launch, MayLaunch;
    InvRegisters(cfg, w, s);
    var t := FlushTurn(cfg, w, s).state;
    if Queue(s.cycle) == [] {
      BareContinues(cfg, w, s, t);
    } else if Now(w, s) - s.cycle.flushTime >= MAX_FLUSH_DURATION {
      CutOffContinues(cfg, w, s);
    } else if s.cycle.lastFlush + cfg.throttlingDelay <= Now(w, Tick(s)) && s.cycle.running < cfg.maxParallelism {
      GuardPermitsLaunch(cfg, w, s);
      BareContinues(cfg, w, s, Tick(Tick(s)));
      LaunchContinues(cfg, w, Tick(Tick(s)), Now(w, s), Now(w, Tick(s)));
      ContinuesTransitive(cfg, w, s, Tick(Tick(s)), t);
    } else {
      BareContinues(cfg, w, s, t);
    }
  }

  lemma {:induction false} FlushNextContinues(cfg: Config, w: World, s: State)
    requires Nondecreasing(w) && Inv(cfg, w, s)
    ensures Continues(cfg, w, s, FlushNext(cfg, w, s))
    decreases |Queue(s.cycle)|
  {
    hide Inv, Continues;
    InvRegisters(cfg, w, s);
    TurnContinues(cfg, w, s);
    TurnKeeps(cfg, w, s);
    var turn := FlushTurn(cfg, w, s);
    if turn.Again? {
      FlushNextContinues(cfg, w, turn.state);
      ContinuesTransitive(cfg, w, s, turn.state, FlushNext(cfg, w, turn.state));
    }
  }

  lemma CompleteContinues(cfg: Config, w: World, s: State, id: nat, outcome: Outcome)
    requires Nondecreasing(w) && Inv(cfg, w, s) && id in s.cycle.inFlight
    ensures Continues(cfg, w, s, Complete(cfg, w, s, id, outcome).0)
  {
    hide Inv, Continues, TrError, RemoveFirst;
    InFlightFacts(cfg, w, s, id);
    if outcome.Failed? {
      TrErrorContinues(cfg, w, s, id);
    } else {
      BareContinues(cfg, w, s, Complete(cfg, w, s, id, outcome).0);
    }
  }

  lemma ResponseContinues(cfg: Config, w: World, s: State, id: nat, outcome: Outcome)
    requires Nondecreasing(w) && Inv(cfg, w, s) && id in s.cycle.inFlight
    ensures Continues(cfg, w, s, Respond(cfg, w, s, id, outcome))
  {
    hide Inv, Continues, Complete, FlushNext;
    InvRegisters(cfg, w, s);
    var c := Complete(cfg, w, s, id, outcome);
    CompleteContinues(cfg, w, s, id, outcome);
    if c.1 {
      CompleteKeeps(cfg, w, s, id, outcome);
      FlushNextContinues(cfg, w, c.0);
      ContinuesTransitive(cfg, w, s, c.0, FlushNext(cfg, w, c.0));
    }
  }

  lemma AppendContinues(cfg: Config, w: World, s: State, endpoint: string, size: nat, created: int)
    requires Inv(cfg, w, s)
    ensures Continues(cfg, w, s, Append(cfg, s, endpoint, size, created))
  {
    hide Continues, MakeRoom;
    BareContinues(cfg, w, s, Append(cfg, s, endpoint, size, created));
  }

  lemma StepContinues(cfg: Config, w: World, s: State, e: Event)
    requires Nondecreasing(w) && Inv(cfg, w, s) && (s.cycle.toFlush.Some? || !e.Flushed?)
    ensures Continues(cfg, w, s, Step(cfg, w, s, e))
  {
    hide Inv, Continues, Append, FlushNext, Respond;
    InvRegisters(cfg, w, s);
    if !Enabled(s, e) {
      BareContinues(cfg, w, s, s);
    } else {
      match e
      case ClockRead => BareContinues(cfg, w, s, Tick(s));
      case Appended(endpoint, size, created) => AppendContinues(cfg, w, s, endpoint, size, created);
      case Flushed => BareContinues(cfg, w, s, s);
      case TimerFired =>
        BookkeepingKeeps(cfg, w, s, s.timers - 1, s.flushCount);
        BareContinues(cfg, w, s, Fire(s));
        FlushNextContinues(cfg, w, Fire(s));
        ContinuesTransitive(cfg, w, s, Fire(s), FlushNext(cfg, w, Fire(s)));
      case Responded(id, outcome) => ResponseContinues(cfg, w, s, id, outcome);
    }
  }

  // ---------- nothing is dropped without a reason ----------

  /** Through any events of one flush: whatever was queued is still queued, or has been
      dispatched, or its endpoint has reached the threshold, or the cut-off is past. */
  lemma {:induction false} NothingIsSkipped(cfg: Config, w: World, s: State, events: seq<Event>)
    requires Nondecreasing(w) && Inv(cfg, w, s) && SameFlush(cfg, w, s, events)
    ensures Continues(cfg, w, s, Run(cfg, w, s, events)) && Inv(cfg, w, Run(cfg, w, s, events))
    decreases |events|
  {
    hide Inv, Continues, Step;
    if events == [] {
      BareContinues(cfg, w, s, s);
    } else {
      var n := |events| - 1;
      assert forall m :: 0 <= m < n ==> events[..n][..m] == events[..m];
      NothingIsSkipped(cfg, w, s, events[..n]);
      InvRegisters(cfg, w, s);
      var before := Run(cfg, w, s, events[..n]);
      StepContinues(cfg, w, before, events[n]);
      StepKeeps(cfg, w, before, events[n]);
      ContinuesTransitive(cfg, w, s, before, Step(cfg, w, before, events[n]));
    }
  }

  // ---------- opening a flush ----------

  lemma TrErrorLeaves(cfg: Config, w: World, s: State, id: nat)
    ensures var r := TrError(cfg, w, s, id); r.ledger == s.ledger && r.flushCount == s.flushCount && r.timers == s.timers
  {
    hide SkipEndpoint, Backoff;
  }

  /** `flush_next` has nothing to do with the list of transactions. */
  lemma {:induction false} FlushNextLeaves(cfg: Config, w: World, s: State)
    ensures FlushNext(cfg, w, s).ledger == s.ledger && FlushNext(cfg, w, s).flushCount == s.flushCount
    decreases |Queue(s.cycle)|
  {
    hide TrError;
    var turn := FlushTurn(cfg, w, s);
    if Queue(s.cycle) != [] {
      TrErrorLeaves(cfg, w, Launched(w, Tick(Tick(s)), Now(w, s), Now(w, Tick(s))), Queue(s.cycle)[|Queue(s.cycle)| - 1]);
    }
    if turn.Again? { FlushNextLeaves(cfg, w, turn.state); }
  }

  predicate IsDue(w: World, s: State, id: nat) {
    id in s.ledger.transactions && At(s.trs, id).nextFlush <= w.clock(s.ticks)
  }

  /** A flush while one is in progress does nothing. Otherwise it takes its first clock
      reading; if nothing is due at that reading, only the count of flushes changes. If
      something is, a flush opens at the second reading: all it queues or dispatches was
      due, and all that was due is queued or dispatched, or its endpoint reached the
      threshold, or the cut-off passed. */
  lemma FlushTakesWhatIsDue(cfg: Config, w: World, s: State)
    requires Nondecreasing(w) && Reachable(cfg, w, s)
    ensures var r := Step(cfg, w, s, Flushed); var from := |s.history.log|;
      if s.cycle.toFlush.Some? then r == s
      else if forall id :: id in s.ledger.transactions ==> !IsDue(w, s, id)
      then r == s.(ticks := s.ticks + 1, flushCount := s.flushCount + 1)
      else && r.flushCount == s.flushCount + 1
           && r.cycle.flushTime == w.clock(s.ticks + 1)
           && r.history.first == from && r.history.firstFailure == |s.history.failures|
           && s.history.log <= r.history.log
           && (forall id :: id in Queue(r.cycle) ==> IsDue(w, s, id))
           && (forall k :: from <= k < |r.history.log| ==> IsDue(w, s, r.history.log[k].id))
           && (forall id :: IsDue(w, s, id) ==> Handled(cfg, w, from, r, id))
  {
    hide Reachable, Inv, FlushNext, StartCycle, Due, FlushOrder, Continues, Handled;
    ReachableKeeps(cfg, w, s);
    var now := w.clock(s.ticks);
    var due := Due(s.trs, s.ledger.transactions, now);
    if s.cycle.toFlush.None? {
      DueIs(cfg, w, s);
      if due == [] {
        forall id | id in s.ledger.transactions ensures !IsDue(w, s, id) {
          assert id !in due;
        }
      } else {
        assert due[0] in due && IsDue(w, s, due[0]);
        TickKeeps(cfg, w, s);
        StartCycleKeeps(cfg, w, Tick(s), due, now);
        var started := StartCycle(w, Tick(s), due);
        FlushNextContinues(cfg, w, started);
        FlushNextLeaves(cfg, w, started);
        Opened(cfg, w, s, due);
        OpenedFlush(cfg, w, started, FlushNext(cfg, w, started));
        forall id | IsDue(w, s, id) ensures Handled(cfg, w, |s.history.log|, Step(cfg, w, s, Flushed), id) {
          assert id in Queue(started.cycle);
          CountIgnored(cfg, w, |s.history.log|, FlushNext(cfg, w, started), id);
        }
      }
    }
  }

  lemma DueIs(cfg: Config, w: World, s: State)
    requires Inv(cfg, w, s)
    ensures var due := Due(s.trs, s.ledger.transactions, w.clock(s.ticks));
      Ascending(due) && forall id :: id in due <==> IsDue(w, s, id)
  {
    hide Due;
    DueMeaning(s.trs, s.ledger.transactions, w.clock(s.ticks));
  }

  lemma Opened(cfg: Config, w: World, s: State, due: seq<nat>)
    requires Ascending(due)
    ensures var r := StartCycle(w, Tick(s), due);
      && (forall id :: id in Queue(r.cycle) <==> id in due)
      && r.cycle.flushTime == w.clock(s.ticks + 1)
      && r.history == s.history.(first := |s.history.log|, firstFailure := |s.history.failures|)
      && r.flushCount == s.flushCount
  {
    hide FlushOrder;
    FlushOrderMeaning(s.trs, due);
  }

  lemma OpenedFlush(cfg: Config, w: World, started: State, r: State)
    requires Continues(cfg, w, started, r)
    ensures r.cycle.flushTime == started.cycle.flushTime && r.history.first == started.history.first
    ensures r.history.firstFailure == started.history.firstFailure && started.history.log <= r.history.log
    ensures forall id :: id in Queue(r.cycle) ==> id in Queue(started.cycle)
    ensures forall k :: |started.history.log| <= k < |r.history.log| ==> r.history.log[k].id in Queue(started.cycle)
    ensures forall id :: id in Queue(started.cycle) ==> Handled(cfg, w, |started.history.log|, r, id)
  {
  }

  lemma CountIgnored(cfg: Config, w: World, from: nat, t: State, id: nat)
    requires Handled(cfg, w, from, t, id)
    ensures Handled(cfg, w, from, CountFlush(t), id)
  {
  }

  // ---------- what the breaker counts ----------

  /** In every reachable state an endpoint's error count is the number of failures its
      transactions had since the current flush began. */
  lemma {:induction false} ErrorsAreFailures(cfg: Config, w: World, events: seq<Event>, endpoint: string)
    requires Nondecreasing(w)
    ensures var s := Run(cfg, w, Initial(w), events);
      && s.history.firstFailure <= |s.history.failures|
      && EndpointErrors(s.cycle, endpoint) == FailureCount(s.trs, s.history.failures[s.history.firstFailure..], endpoint)
    decreases |events|
  {
    hide Inv, Step, Continues, FailureCount, EndpointErrors;
    if events == [] {
      NoErrorsYet(w, endpoint);
    } else {
      var n := |events| - 1;
      ErrorsAreFailures(cfg, w, events[..n], endpoint);
      RunKeeps(cfg, w, events[..n]);
      var s := Run(cfg, w, Initial(w), events[..n]);
      InvRegisters(cfg, w, s);
      if s.cycle.toFlush.None? && events[n].Flushed? {
        FlushCountsAfresh(cfg, w, s, endpoint);
      } else {
        StepContinues(cfg, w, s, events[n]);
        CountGoesOn(cfg, w, s, Step(cfg, w, s, events[n]), endpoint);
      }
    }
  }

  lemma NoErrorsYet(w: World, endpoint: string)
    ensures var s := Initial(w);
      && s.history.firstFailure <= |s.history.failures|
      && EndpointErrors(s.cycle, endpoint) == FailureCount(s.trs, s.history.failures[s.history.firstFailure..], endpoint)
  {
  }

  lemma CountGoesOn(cfg: Config, w: World, s: State, t: State, endpoint: string)
    requires Registered(s.trs, s.ledger, s.cycle, s.history) && Continues(cfg, w, s, t)
    requires s.history.firstFailure <= |s.history.failures|
    requires EndpointErrors(s.cycle, endpoint) == FailureCount(s.trs, s.history.failures[s.history.firstFailure..], endpoint)
    ensures t.history.firstFailure <= |t.history.failures|
    ensures EndpointErrors(t.cycle, endpoint) == FailureCount(t.trs, t.history.failures[t.history.firstFailure..], endpoint)
  {
    hide FailureCount, EndpointErrors, NothingSkipped;
    var first := s.history.firstFailure;
    var a, b := s.history.failures[first..], t.history.failures[|s.history.failures|..];
    assert t.history.failures[first..] == a + b;
    CountJoin(t.trs, a, b, endpoint);
    forall k | 0 <= k < |a| ensures At(s.trs, a[k].id).endpoint == At(t.trs, a[k].id).endpoint {
      assert a[k] == s.history.failures[first + k];
    }
    CountSame(s.trs, t.trs, a, endpoint);
  }

  lemma FlushCountsAfresh(cfg: Config, w: World, s: State, endpoint: string)
    requires Nondecreasing(w) && Inv(cfg, w, s) && s.cycle.toFlush.None?
    requires s.history.firstFailure <= |s.history.failures|
    requires EndpointErrors(s.cycle, endpoint) == FailureCount(s.trs, s.history.failures[s.history.firstFailure..], endpoint)
    ensures var t := Step(cfg, w, s, Flushed);
      && t.history.firstFailure <= |t.history.failures|
      && EndpointErrors(t.cycle, endpoint) == FailureCount(t.trs, t.history.failures[t.history.firstFailure..], endpoint)
  {
    hide Inv, FlushNext, StartCycle, Due, Continues, FailureCount, EndpointErrors;
    var now := w.clock(s.ticks);
    var due := Due(s.trs, s.ledger.transactions, now);
    if due != [] {
      TickKeeps(cfg, w, s);
      StartCycleKeeps(cfg, w, Tick(s), due, now);
      var started := StartCycle(w, Tick(s), due);
      InvRegisters(cfg, w, started);
      NothingCharged(w, Tick(s), due, endpoint);
      FlushNextContinues(cfg, w, started);
      CountGoesOn(cfg, w, started, FlushNext(cfg, w, started), endpoint);
    }
  }

  lemma NothingCharged(w: World, s: State, due: seq<nat>, endpoint: string)
    ensures var r := StartCycle(w, s, due);
      && r.history.firstFailure <= |r.history.failures|
      && EndpointErrors(r.cycle, endpoint) == 0 == FailureCount(r.trs, r.history.failures[r.history.firstFailure..], endpoint)
  {
    hide FlushOrder;
    var r := StartCycle(w, s, due);
    assert r.history.failures[r.history.firstFailure..] == [];
  }
}
