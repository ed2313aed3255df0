/** What each call of the forwarder does to its state, in full. */
module ForwarderCalls {
  import opened Prelude
  import opened Sorting
  import opened Forwarder
  import opened ForwarderLedger
  import opened ForwarderInvariants
  import opened ForwarderSteps
  import opened ForwarderTheorems
  import opened ForwarderLiveness
  import opened ForwarderProgress

  // ---------- flush_next ----------

  lemma TrErrorKeepsLog(cfg: Config, w: World, s: State, id: nat)
    ensures TrError(cfg, w, s, id).history.log == s.history.log
  {
    hide SkipEndpoint, Backoff;
  }

  lemma LaunchLogs(cfg: Config, w: World, s: State, checked: int, paced: int)
    requires Queue(s.cycle) != []
    ensures var q := Queue(s.cycle); var id := q[|q| - 1];
      Launch(cfg, w, s, checked, paced).history.log ==
      s.history.log + [Dispatch(id, At(s.trs, id).errors, checked, paced, Now(w, s))]
  {
    hide TrError;
    TrErrorKeepsLog(cfg, w, Launched(w, s, checked, paced), Queue(s.cycle)[|Queue(s.cycle)| - 1]);
  }

  lemma {:induction false} LogGrows(cfg: Config, w: World, s: State)
    ensures s.history.log <= FlushNext(cfg, w, s).history.log
    ensures Queue(s.cycle) == [] ==> FlushNext(cfg, w, s).history.log == s.history.log
    decreases |Queue(s.cycle)|
  {
    hide Launch;
    if Queue(s.cycle) != [] {
      LaunchLogs(cfg, w, Tick(Tick(s)), Now(w, s), Now(w, Tick(s)));
    }
    var turn := FlushTurn(cfg, w, s);
    if turn.Again? { LogGrows(cfg, w, turn.state); }
  }

  /** `flush_next` with something queued dispatches if and only if its first reading is
      before the cut-off, a slot is free, and its second reading is at least the throttling
      delay after the last dispatch. It then dispatches the last queued transaction first. */
  lemma FlushNextDispatchesIff(cfg: Config, w: World, s: State)
    requires Queue(s.cycle) != []
    ensures var r, n, q := FlushNext(cfg, w, s), |s.history.log|, Queue(s.cycle);
      var checked, paced, id := w.clock(s.ticks), w.clock(s.ticks + 1), q[|q| - 1];
      && s.history.log <= r.history.log
      && (|r.history.log| > n <==>
            && checked < s.cycle.flushTime + MAX_FLUSH_DURATION
            && s.cycle.running < cfg.maxParallelism
            && s.cycle.lastFlush + cfg.throttlingDelay <= paced)
      && (|r.history.log| > n ==>
            r.history.log[n] == Dispatch(id, At(s.trs, id).errors, checked, paced, w.clock(s.ticks + 2)))
  {
    hide Launch;
    LaunchLogs(cfg, w, Tick(Tick(s)), Now(w, s), Now(w, Tick(s)));
    var turn := FlushTurn(cfg, w, s);
    if turn.Again? { LogGrows(cfg, w, turn.state); }
  }

  /** Something is queued and a slot is free: the flush is held up by the throttle. */
  predicate Waiting(cfg: Config, s: State) {
    Queue(s.cycle) != [] && s.cycle.running < cfg.maxParallelism
  }

  /** `flush_next` returns with nothing queued, with all slots taken, or because its last
      reading came less than the throttling delay after the last dispatch, the one before
      it being before the cut-off. In the last case only, and with the loop running, it has
      added a timer. It has ended the flush exactly when nothing is queued or in flight. */
  lemma {:induction false} FlushNextReturns(cfg: Config, w: World, s: State)
    requires Nondecreasing(w) && Inv(cfg, w, s)
    ensures var r := FlushNext(cfg, w, s);
      && r.cycle.running <= cfg.maxParallelism
      && (Waiting(cfg, r) ==>
            && s.ticks + 2 <= r.ticks
            && w.clock(r.ticks - 2) < r.cycle.flushTime + MAX_FLUSH_DURATION
            && w.clock(r.ticks - 1) < r.cycle.lastFlush + cfg.throttlingDelay)
      && r.timers == s.timers + (if Waiting(cfg, r) && cfg.ioloopRunning then 1 else 0)
      && (r.cycle.toFlush.None? <==> Queue(r.cycle) == [] && r.cycle.inFlight == {})
    decreases |Queue(s.cycle)|
  {
    hide Inv, Launch;
    TurnKeeps(cfg, w, s);
    FlushNextKeeps(cfg, w, s);
    CountIsExact(cfg, w, s);
    FlightOf(cfg, w, s);
    FlightOf(cfg, w, FlushNext(cfg, w, s));
    var turn := FlushTurn(cfg, w, s);
    if Queue(s.cycle) != [] { LaunchTimers(cfg, w, Tick(Tick(s)), Now(w, s), Now(w, Tick(s))); }
    if turn.Again? { FlushNextReturns(cfg, w, turn.state); }
  }

  lemma FlightOf(cfg: Config, w: World, s: State)
    requires Inv(cfg, w, s)
    ensures s.cycle.running == |s.cycle.inFlight| <= cfg.maxParallelism && (s.cycle.toFlush.None? ==> s.cycle.inFlight == {})
  {
  }

  lemma LaunchTimers(cfg: Config, w: World, s: State, checked: int, paced: int)
    requires Queue(s.cycle) != []
    ensures var r := Launch(cfg, w, s, checked, paced); r.timers == s.timers && s.ticks <= r.ticks
  {
    hide TrError;
    var l := Launched(w, s, checked, paced);
    TrErrorLeaves(cfg, w, l, Queue(s.cycle)[|Queue(s.cycle)| - 1]);
    TrErrorTicks(cfg, w, l, Queue(s.cycle)[|Queue(s.cycle)| - 1]);
  }

  lemma {:induction false} SkipTicks(cfg: Config, w: World, trs: map<nat, Tr>, ticks: nat, queue: seq<nat>, endpoint: string)
    ensures ticks <= SkipEndpoint(cfg, w, trs, ticks, queue, endpoint).ticks
    decreases |queue|
  {
    if queue != [] { SkipTicks(cfg, w, trs, ticks, queue[..|queue| - 1], endpoint); }
  }

  lemma TrErrorTicks(cfg: Config, w: World, s: State, id: nat)
    ensures s.ticks <= TrError(cfg, w, s, id).ticks
  {
    hide SkipEndpoint, Backoff;
    var c := Charge(cfg, w, s, id);
    SkipTicks(cfg, w, c.trs, c.ticks, Queue(s.cycle), At(s.trs, id).endpoint);
  }

  /** A dispatch takes the last queued transaction. A send that does not raise puts it in
      flight; one that raises is charged as a failure at the next reading. */
  lemma LaunchMeaning(cfg: Config, w: World, s: State, checked: int, paced: int)
    requires Nondecreasing(w) && Inv(cfg, w, s) && MayLaunch(cfg, w, s, checked, paced)
    ensures var r, q := Launch(cfg, w, s, checked, paced), Queue(s.cycle);
      var id := q[|q| - 1];
      && r.cycle.lastFlush == w.clock(s.ticks) && r.sends == s.sends + 1
      && (if w.raises(s.sends)
          then && r.cycle.inFlight == s.cycle.inFlight && r.cycle.running == s.cycle.running
               && r.history.failures == s.history.failures + [Failure(id, At(s.trs, id).errors + 1, w.clock(s.ticks + 1))]
          else && r.cycle.inFlight == s.cycle.inFlight + {id} && r.cycle.running == s.cycle.running + 1
               && r.cycle.toFlush == Some(q[..|q| - 1]) && r.trs == s.trs && r.history.failures == s.history.failures)
  {
    hide Inv, TrError;
    var q, l := Queue(s.cycle), Launched(w, s, checked, paced);
    LaunchedKeeps(cfg, w, s, checked, paced);
    InvQueue(cfg, w, s);
    if w.raises(s.sends) {
      TrErrorMeaning(cfg, w, l, q[|q| - 1]);
      assert s.cycle.inFlight + {q[|q| - 1]} - {q[|q| - 1]} == s.cycle.inFlight;
      assert TrError(cfg, w, l, q[|q| - 1]).sends == l.sends && TrError(cfg, w, l, q[|q| - 1]).cycle.lastFlush == l.cycle.lastFlush by {
        TrErrorRest(cfg, w, l, q[|q| - 1]);
      }
    }
  }

  lemma TrErrorRest(cfg: Config, w: World, s: State, id: nat)
    ensures var r := TrError(cfg, w, s, id); r.sends == s.sends && r.cycle.lastFlush == s.cycle.lastFlush
  {
    hide SkipEndpoint, Backoff;
  }

  lemma InvQueue(cfg: Config, w: World, s: State)
    requires Inv(cfg, w, s)
    ensures forall id :: id in Queue(s.cycle) ==> id !in s.cycle.inFlight && id in s.trs
    ensures s.cycle.running == |s.cycle.inFlight|
    ensures Queue(s.cycle) != [] ==> Queue(s.cycle)[|Queue(s.cycle)| - 1] in Queue(s.cycle)
  {
  }

  // ---------- failures ----------

  /** Whole seconds, at the reading plus min(20 e s, max), less than a second short of it. */
  ghost predicate PutOffFrom(cfg: Config, nextFlush: int, errors: nat, now: int) {
    var full := now + Min(20 * errors * SECOND, cfg.maxWaitForReplay);
    nextFlush % SECOND == 0 && full - SECOND < nextFlush <= full
  }

  /** A recompute changes the next flush and nothing else that the source keeps. */
  lemma BackoffMeaning(cfg: Config, tr: Tr, now: int)
    ensures var r := Backoff(cfg, tr, now);
      && r == tr.(nextFlush := r.nextFlush, backoffAt := Some(now))
      && PutOffFrom(cfg, r.nextFlush, tr.errors, now)
  {
    WholeSecondBounds(now + Delay(cfg, tr.errors));
  }

  /** The queued transactions of other endpoints, in their order. */
  function Others(trs: map<nat, Tr>, queue: seq<nat>, endpoint: string): seq<nat>
    decreases |queue|
  {
    if queue == [] then []
    else
      var n := |queue| - 1;
      Others(trs, queue[..n], endpoint) + if At(trs, queue[n]).endpoint != endpoint then [queue[n]] else []
  }

  lemma {:induction false} SkipIsFilter(cfg: Config, w: World, trs: map<nat, Tr>, ticks: nat, queue: seq<nat>, endpoint: string)
    ensures var r := SkipEndpoint(cfg, w, trs, ticks, queue, endpoint);
      r.kept == Others(trs, queue, endpoint) && forall id :: At(r.trs, id).endpoint == At(trs, id).endpoint
    decreases |queue|
  {
    hide Delay, WholeSecond;
    if queue != [] { SkipIsFilter(cfg, w, trs, ticks, queue[..|queue| - 1], endpoint); }
  }

  /** `tr_error`, on the state before the failure. The transaction and its endpoint are
      charged once, nobody else is. Unless this is the failure that reaches the threshold,
      the flush and all other transactions stay as they are. If it is, exactly the queued
      transactions of this endpoint leave and are recomputed; the others stay in order. */
  lemma TrErrorMeaning(cfg: Config, w: World, s: State, id: nat)
    requires Nondecreasing(w) && Inv(cfg, w, s) && id in s.cycle.inFlight
    ensures var r, tr, now, q := TrError(cfg, w, s, id), At(s.trs, id), w.clock(s.ticks), Queue(s.cycle);
      var e := tr.endpoint;
      var trips := EndpointErrors(s.cycle, e) == cfg.maxEndpointErrors - 1;
      && At(r.trs, id) == tr.(errors := tr.errors + 1, nextFlush := At(r.trs, id).nextFlush, backoffAt := Some(now))
      && PutOffFrom(cfg, At(r.trs, id).nextFlush, tr.errors + 1, now)
      && r.ledger == s.ledger
      && r.history == s.history.(failures := s.history.failures + [Failure(id, tr.errors + 1, now)])
      && r.cycle.inFlight == s.cycle.inFlight - {id} && r.cycle.running == s.cycle.running - 1
      && (forall e' :: EndpointErrors(r.cycle, e') == EndpointErrors(s.cycle, e') + if e' == e then 1 else 0)
      && r.cycle.toFlush == Some(if trips then Others(s.trs, q, e) else q)
      && (forall x :: x != id && !(trips && x in q && At(s.trs, x).endpoint == e) ==> At(r.trs, x) == At(s.trs, x))
      && (forall x :: trips && x in q && At(s.trs, x).endpoint == e ==> PutOff(cfg, At(s.trs, x), At(r.trs, x), now, Now(w, r)))
  {
    hide Inv, Charge, SkipEndpoint, EndpointErrors, PutOffFrom, PutOff, Registered;
    InFlightFacts(cfg, w, s, id);
    var c, tr, q := Charge(cfg, w, s, id), At(s.trs, id), Queue(s.cycle);
    ChargeMeaning(cfg, w, s, id);
    if EndpointErrors(s.cycle, tr.endpoint) == cfg.maxEndpointErrors - 1 {
      ChargedFacts(cfg, w, s, id);
      TripMeaning(cfg, w, c, tr.endpoint);
      ClockMonotone(w, s.ticks, c.ticks);
      OthersSame(s.trs, c.trs, q, tr.endpoint);
      forall x | x in q && At(s.trs, x).endpoint == tr.endpoint
        ensures PutOff(cfg, At(s.trs, x), At(TrError(cfg, w, s, id).trs, x), w.clock(s.ticks), Now(w, TrError(cfg, w, s, id)))
      {
        assert x != id;
        PutOffWider(cfg, At(s.trs, x), At(TrError(cfg, w, s, id).trs, x), w.clock(s.ticks), w.clock(c.ticks),
                    Now(w, TrError(cfg, w, s, id)));
      }
    }
  }

  lemma ClockMonotone(w: World, i: nat, j: nat)
    requires Nondecreasing(w) && i <= j
    ensures w.clock(i) <= w.clock(j)
  {
  }

  lemma PutOffWider(cfg: Config, tr: Tr, tr': Tr, earlier: int, from: int, to: int)
    requires PutOff(cfg, tr, tr', from, to) && earlier <= from
    ensures PutOff(cfg, tr, tr', earlier, to)
  {
  }

  lemma {:induction false} OthersSame(trs: map<nat, Tr>, trs': map<nat, Tr>, q: seq<nat>, endpoint: string)
    requires forall x :: x in q ==> At(trs, x).endpoint == At(trs', x).endpoint
    ensures Others(trs, q, endpoint) == Others(trs', q, endpoint)
    decreases |q|
  {
    if q != [] {
      assert q == q[..|q| - 1] + [q[|q| - 1]];
      OthersSame(trs, trs', q[..|q| - 1], endpoint);
    }
  }

  lemma ChargeMeaning(cfg: Config, w: World, s: State, id: nat)
    ensures var c, tr, now := Charge(cfg, w, s, id), At(s.trs, id), w.clock(s.ticks);
      && At(c.trs, id) == tr.(errors := tr.errors + 1, nextFlush := At(c.trs, id).nextFlush, backoffAt := Some(now))
      && PutOffFrom(cfg, At(c.trs, id).nextFlush, tr.errors + 1, now)
      && (forall x :: x != id ==> At(c.trs, x) == At(s.trs, x))
      && c.ledger == s.ledger && c.ticks == s.ticks + 1 && c.cycle.toFlush == s.cycle.toFlush
      && c.history == s.history.(failures := s.history.failures + [Failure(id, tr.errors + 1, now)])
      && c.cycle.inFlight == s.cycle.inFlight - {id} && c.cycle.running == s.cycle.running - 1
      && (forall e :: EndpointErrors(c.cycle, e) == EndpointErrors(s.cycle, e) + if e == tr.endpoint then 1 else 0)
  {
    hide Backoff, PutOffFrom;
    BackoffMeaning(cfg, At(s.trs, id).(errors := At(s.trs, id).errors + 1), w.clock(s.ticks));
  }

  lemma TripMeaning(cfg: Config, w: World, s: State, endpoint: string)
    requires Nondecreasing(w) && Registered(s.trs, s.ledger, s.cycle, s.history) && NoDuplicates(Queue(s.cycle))
    ensures var r, q := Trip(cfg, w, s, endpoint), Queue(s.cycle);
      && r.ledger == s.ledger && r.history == s.history && r.cycle == s.cycle.(toFlush := Some(Others(s.trs, q, endpoint)))
      && (forall e :: EndpointErrors(r.cycle, e) == EndpointErrors(s.cycle, e))
      && (forall x :: !(x in q && At(s.trs, x).endpoint == endpoint) ==> At(r.trs, x) == At(s.trs, x))
      && (forall x :: x in q && At(s.trs, x).endpoint == endpoint ==>
            PutOff(cfg, At(s.trs, x), At(r.trs, x), w.clock(s.ticks), Now(w, r)))
  {
    hide SkipEndpoint, PutOff, Others, At;
    SkipEffect(cfg, w, s.trs, s.ticks, Queue(s.cycle), endpoint);
    SkipIsFilter(cfg, w, s.trs, s.ticks, Queue(s.cycle), endpoint);
  }

  // ---------- completions that remove ----------

  /** A success or a rejection finds its transaction listed, removes it and counts it, as
      rejected only if it was too large; or it raises and changes no count. */
  lemma CompletionMeaning(cfg: Config, w: World, s: State, id: nat, outcome: Outcome)
    requires Inv(cfg, w, s) && id in s.cycle.inFlight && !outcome.Failed?
    ensures var (r, normal) := Complete(cfg, w, s, id, outcome); var l := s.ledger;
      && (normal <==> id in l.transactions)
      && r.cycle.inFlight == s.cycle.inFlight - {id} && r.cycle.toFlush == s.cycle.toFlush && r.history == s.history
      && (normal ==>
            && (forall x :: x in r.ledger.transactions <==> x in l.transactions && x != id)
            && Ascending(r.ledger.transactions)
            && r.ledger == l.(transactions := r.ledger.transactions, totalCount := l.totalCount - 1,
                              totalSize := l.totalSize - At(s.trs, id).size, flushed := l.flushed + 1,
                              rejected := l.rejected + if outcome.TooLarge? then 1 else 0))
      && (!normal ==> r.ledger == l)
      && At(r.trs, id) == At(s.trs, id).(errors := At(s.trs, id).errors + if outcome.TooLarge? then 1 else 0)
      && (forall x :: x != id ==> At(r.trs, x) == At(s.trs, x))
  {
    InvAscends(cfg, w, s);
    hide Inv, RemoveFirst, Ascending;
    RemoveFirstAscending(s.ledger.transactions, id);
  }

  lemma InvAscends(cfg: Config, w: World, s: State)
    requires Inv(cfg, w, s)
    ensures Ascending(s.ledger.transactions)
  {
  }

  /** How many events of a run were answers of these kinds to listed transactions. */
  ghost function Answers(cfg: Config, w: World, events: seq<Event>, successes: bool): nat
    decreases |events|
  {
    if events == [] then 0
    else
      var n := |events| - 1;
      var s, e := Run(cfg, w, Initial(w), events[..n]), events[n];
      Answers(cfg, w, events[..n], successes) +
      if e.Responded? && e.id in s.cycle.inFlight && e.id in s.ledger.transactions
         && (e.outcome.TooLarge? || (successes && e.outcome.Success?)) then 1 else 0
  }

  /** Over every run: flushed counts exactly the successes and rejections, and rejected the
      rejections, of transactions that had not been evicted. */
  lemma {:induction false} CountsAreAnswers(cfg: Config, w: World, events: seq<Event>)
    requires Nondecreasing(w)
    ensures var l := Run(cfg, w, Initial(w), events).ledger;
      l.flushed == Answers(cfg, w, events, true) && l.rejected == Answers(cfg, w, events, false)
    decreases |events|
  {
    hide Inv, Step;
    if events != [] {
      var n := |events| - 1;
      CountsAreAnswers(cfg, w, events[..n]);
      RunKeeps(cfg, w, events[..n]);
      StepCounts(cfg, w, Run(cfg, w, Initial(w), events[..n]), events[n]);
    }
  }

  lemma StepCounts(cfg: Config, w: World, s: State, e: Event)
    requires Nondecreasing(w) && Inv(cfg, w, s)
    ensures var r := Step(cfg, w, s, e).ledger;
      var answered := e.Responded? && e.id in s.cycle.inFlight && e.id in s.ledger.transactions;
      && r.flushed == s.ledger.flushed + (if answered && !e.outcome.Failed? then 1 else 0)
      && r.rejected == s.ledger.rejected + (if answered && e.outcome.TooLarge? then 1 else 0)
  {
    hide Inv, Append, FlushNext, Complete, StartCycle, Due;
    if Enabled(s, e) {
      match e
      case ClockRead =>
      case Appended(endpoint, size, created) => AppendCounts(cfg, w, s, endpoint, size, created);
      case Flushed =>
        var due := Due(s.trs, s.ledger.transactions, Now(w, s));
        StartLeaves(w, Tick(s), due);
        FlushNextLeaves(cfg, w, StartCycle(w, Tick(s), due));
      case TimerFired => FlushNextLeaves(cfg, w, Fire(s));
      case Responded(id, outcome) =>
        FlushNextLeaves(cfg, w, Complete(cfg, w, s, id, outcome).0);
        if outcome.Failed? { FailureLeaves(cfg, w, s, id); } else { CompletionMeaning(cfg, w, s, id, outcome); }
    }
  }

  lemma FailureLeaves(cfg: Config, w: World, s: State, id: nat)
    ensures Complete(cfg, w, s, id, Failed).0.ledger == s.ledger
  {
    hide TrError;
    TrErrorLeaves(cfg, w, s, id);
  }

  lemma StartLeaves(w: World, s: State, due: seq<nat>)
    ensures StartCycle(w, s, due).ledger == s.ledger
  {
  }

  lemma AppendCounts(cfg: Config, w: World, s: State, endpoint: string, size: nat, created: int)
    requires Inv(cfg, w, s)
    ensures var r := Append(cfg, s, endpoint, size, created).ledger;
      r.flushed == s.ledger.flushed && r.rejected == s.ledger.rejected
  {
    InvTotals(cfg, w, s);
    hide Inv, MakeRoom, EvictionOrder, EvictAll, Totalled;
    var victims := MakeRoomEffect(cfg, s.trs, s.ledger, size);
  }

  lemma InvTotals(cfg: Config, w: World, s: State)
    requires Inv(cfg, w, s)
    ensures Totalled(s.trs, s.ledger)
  {
  }
}
