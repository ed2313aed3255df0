/** Every step keeps the invariant, hence every run does. */
module ForwarderSteps {
  import opened Prelude
  import opened Sorting
  import opened Forwarder
  import opened ForwarderLedger
  import opened ForwarderInvariants

  // ---------- starting a flush ----------

  lemma {:induction false} DueMeaning(trs: map<nat, Tr>, ids: seq<nat>, now: int)
    requires Ascending(ids)
    ensures Ascending(Due(trs, ids, now))
    ensures forall id :: id in Due(trs, ids, now) <==> id in ids && At(trs, id).nextFlush <= now
    decreases |ids|
  {
    if ids != [] {
      var n := |ids| - 1;
      assert ids == ids[..n] + [ids[n]];
      DueMeaning(trs, ids[..n], now);
      assert forall id :: id in ids[..n] ==> id < ids[n];
      if At(trs, ids[n]).nextFlush <= now { AscendingSnoc(Due(trs, ids[..n], now), ids[n]); }
    }
  }

  lemma {:induction false} AllDue(trs: map<nat, Tr>, ids: seq<nat>, now: int)
    requires forall id :: id in ids ==> At(trs, id).nextFlush <= now
    ensures Due(trs, ids, now) == ids
    decreases |ids|
  {
    if ids != [] {
      var n := |ids| - 1;
      assert ids == ids[..n] + [ids[n]];
      AllDue(trs, ids[..n], now);
    }
  }

  lemma FlushOrderMeaning(trs: map<nat, Tr>, ids: seq<nat>)
    requires Ascending(ids)
    ensures QueueSorted(trs, FlushOrder(trs, ids)) && NoDuplicates(FlushOrder(trs, ids))
    ensures forall id :: id in FlushOrder(trs, ids) <==> id in ids
  {
    var keys: seq<(int, int)> := seq(|ids|, i requires 0 <= i < |ids| => (0 - At(trs, ids[i]).errors, ids[i]));
    var order := SortOrder(keys);
    SortOrderAscends(keys);
    var q := FlushOrder(trs, ids);
    assert q == Pick(ids, order);
    forall i, j | 0 <= i < j < |q|
      ensures q[i] != q[j] && Precedes(At(trs, q[j]).errors, q[j], At(trs, q[i]).errors, q[i])
    {
      assert order[i] != order[j];
      assert keys[order[i]] == (0 - At(trs, q[i]).errors, q[i]) && keys[order[j]] == (0 - At(trs, q[j]).errors, q[j]);
    }
    forall id | id in ids ensures id in q {
      var k :| 0 <= k < |ids| && ids[k] == id;
      assert k in order;
      var i :| 0 <= i < |order| && order[i] == k;
      assert q[i] == id;
    }
  }

  lemma StartCycleKeeps(cfg: Config, w: World, s: State, due: seq<nat>, now: int)
    requires Nondecreasing(w) && Inv(cfg, w, s) && s.cycle.toFlush.None?
    requires due == Due(s.trs, s.ledger.transactions, now) && now <= Now(w, s)
    ensures Inv(cfg, w, StartCycle(w, s, due))
  {
    DueMeaning(s.trs, s.ledger.transactions, now);
    FlushOrderMeaning(s.trs, due);
    StartCycleTimes(cfg, w, s, due);
    StartCycleBreaker(cfg, w, s, due);
    StartCycleQueue(cfg, w, s, due);
    hide Accounted, FlushOrder, Due, Timed, Bounded, Tripped, Ascending, Registered, Flight, Once, Ordered, Throttled;
  }

  lemma StartCycleQueue(cfg: Config, w: World, s: State, due: seq<nat>)
    requires Registered(s.trs, s.ledger, s.cycle, s.history) && Flight(cfg, s.cycle) && Throttled(cfg, s.cycle, s.history)
    requires s.cycle.toFlush.None?
    requires forall id :: id in FlushOrder(s.trs, due) ==> id in s.ledger.transactions
    requires QueueSorted(s.trs, FlushOrder(s.trs, due)) && NoDuplicates(FlushOrder(s.trs, due))
    ensures var r := StartCycle(w, s, due);
      && Registered(r.trs, r.ledger, r.cycle, r.history) && Flight(cfg, r.cycle) && Once(r.cycle, r.history)
      && Ordered(r.trs, Queue(r.cycle), r.history) && Throttled(cfg, r.cycle, r.history)
  {
    hide FlushOrder;
  }

  lemma StartCycleTimes(cfg: Config, w: World, s: State, due: seq<nat>)
    requires Nondecreasing(w) && Timed(cfg, w, s) && s.cycle.toFlush.None?
    requires forall id :: id in FlushOrder(s.trs, due) ==> id in s.ledger.transactions && At(s.trs, id).nextFlush <= Now(w, s)
    ensures Timed(cfg, w, StartCycle(w, s, due))
  {
    hide FlushOrder, Recomputed, NotBefore;
    var r := StartCycle(w, s, due);
    assert Now(w, s) <= Now(w, r);
    assert forall id :: Live(r.ledger, r.cycle, id) ==> Live(s.ledger, s.cycle, id);
  }

  lemma StartCycleBreaker(cfg: Config, w: World, s: State, due: seq<nat>)
    requires s.cycle.inFlight == {}
    ensures var r := StartCycle(w, s, due); Bounded(cfg, r.trs, r.cycle) && Tripped(cfg, r.trs, r.cycle)
  {
    hide FlushOrder;
    var r := StartCycle(w, s, due);
    assert forall e :: InFlightOf(r.trs, r.cycle.inFlight, e) == {};
  }

  // ---------- append ----------

  lemma AppendKeeps(cfg: Config, w: World, s: State, endpoint: string, size: nat, created: int)
    requires Inv(cfg, w, s)
    ensures Inv(cfg, w, Append(cfg, s, endpoint, size, created))
  {
    var r := Append(cfg, s, endpoint, size, created);
    var id := s.ledger.counter + 1;
    AppendAccounts(cfg, s, endpoint, size, created);
    AppendSubset(cfg, s, endpoint, size, created);
    assert id !in s.trs;
    AppendFrame(cfg, s.trs, s.ledger, s.cycle, s.history, id, At(r.trs, id), r.ledger, Now(w, s));
  }

  lemma AppendSubset(cfg: Config, s: State, endpoint: string, size: nat, created: int)
    requires Accounted(s.trs, s.ledger)
    ensures var l := Append(cfg, s, endpoint, size, created).ledger;
      && l.counter == s.ledger.counter + 1
      && (forall x :: x in l.transactions ==> x in s.ledger.transactions || x == s.ledger.counter + 1)
  {
    var victims := MakeRoomEffect(cfg, s.trs, s.ledger, size);
  }

  /** A fresh transaction disturbs nothing recorded about the others. */
  lemma AppendFrame(cfg: Config, trs: map<nat, Tr>, l: Ledger, c: Cycle, h: History, id: nat, tr: Tr, l': Ledger,
        now: int)
    requires Registered(trs, l, c, h) && id !in trs && l'.counter == id == l.counter + 1
    requires tr.errors == 0 && tr.backoffAt.None? && tr.nextFlush == tr.created
    requires forall x :: x in l'.transactions ==> x in l.transactions || x == id
    ensures var trs' := trs[id := tr];
      && Registered(trs', l', c, h)
      && (Ordered(trs, Queue(c), h) ==> Ordered(trs', Queue(c), h))
      && (Tripped(cfg, trs, c) ==> Tripped(cfg, trs', c))
      && (Bounded(cfg, trs, c) ==> Bounded(cfg, trs', c))
      && (Replayable(cfg, trs, l, c) ==> Replayable(cfg, trs', l', c))
      && (Spaced(cfg, trs, h) ==> Spaced(cfg, trs', h))
      && (Past(now, trs, l, c, h) ==> Past(now, trs', l', c, h))
  {
    var trs' := trs[id := tr];
    var q := Queue(c);
    assert forall x :: x != id ==> At(trs', x) == At(trs, x);
    assert forall x :: x in q ==> x != id;
    assert forall i :: 0 <= i < |q| ==> q[i] in q;
    assert forall e :: InFlightOf(trs', c.inFlight, e) == InFlightOf(trs, c.inFlight, e);
    assert forall f :: f in h.failures ==> f.id != id by {
      forall f | f in h.failures ensures f.id != id {
        var k :| 0 <= k < |h.failures| && h.failures[k] == f;
      }
    }
    assert forall x :: Live(l', c, x) && x != id ==> Live(l, c, x);
  }

  // ---------- completions that remove ----------

  lemma LandedKeeps(cfg: Config, w: World, s: State, id: nat)
    requires Inv(cfg, w, s) && id in s.cycle.inFlight
    ensures Inv(cfg, w, Landed(s, id))
  {
    LandedBounded(cfg, s, id);
    hide Bounded, Accounted, Spaced, Throttled, Recomputed;
    assert forall x :: Live(s.ledger, Land(s.cycle, id), x) ==> Live(s.ledger, s.cycle, x);
  }

  lemma LandedBounded(cfg: Config, s: State, id: nat)
    requires Bounded(cfg, s.trs, s.cycle)
    ensures Bounded(cfg, s.trs, Land(s.cycle, id))
  {
    var c, c' := s.cycle, Land(s.cycle, id);
    forall e | cfg.maxEndpointErrors >= 1
      ensures EndpointErrors(c', e) + |InFlightOf(s.trs, c'.inFlight, e)| <= BreakerBound(cfg)
    {
      SubsetSize(InFlightOf(s.trs, c'.inFlight, e), InFlightOf(s.trs, c.inFlight, e));
      assert EndpointErrors(c, e) + |InFlightOf(s.trs, c.inFlight, e)| <= BreakerBound(cfg);
    }
  }

  lemma CommitKeeps(cfg: Config, w: World, s: State, id: nat)
    requires Inv(cfg, w, s) && id in s.ledger.transactions
    ensures Inv(cfg, w, Commit(s, id))
    ensures id !in Commit(s, id).ledger.transactions
  {
    CommitAccounts(s, id);
    RemoveFirstAscending(s.ledger.transactions, id);
    var l := Commit(s, id).ledger;
    assert forall x :: Live(l, s.cycle, x) ==> Live(s.ledger, s.cycle, x);
  }

  /** Charging an error to a transaction nobody will look at again. */
  lemma BumpKeeps(cfg: Config, w: World, s: State, id: nat)
    requires Inv(cfg, w, s) && id in s.trs && !Live(s.ledger, s.cycle, id)
    ensures Inv(cfg, w, Bump(s, id))
  {
    hide Accounted, Ordered, Bounded, Spaced;
    var trs := Bump(s, id).trs;
    assert forall x :: x != id ==> At(trs, x) == At(s.trs, x);
    SameSizesAccount(s.trs, trs, s.ledger);
    BumpFrame(cfg, s, id);
  }

  lemma BumpFrame(cfg: Config, s: State, id: nat)
    requires id !in Queue(s.cycle) && id !in s.cycle.inFlight
    requires Ordered(s.trs, Queue(s.cycle), s.history) && Bounded(cfg, s.trs, s.cycle) && Spaced(cfg, s.trs, s.history)
    ensures var trs := Bump(s, id).trs;
      Ordered(trs, Queue(s.cycle), s.history) && Bounded(cfg, trs, s.cycle) && Spaced(cfg, trs, s.history)
  {
    var trs := Bump(s, id).trs;
    var q := Queue(s.cycle);
    assert forall x :: x != id ==> At(trs, x) == At(s.trs, x);
    assert forall i :: 0 <= i < |q| ==> q[i] in q;
    assert forall e :: InFlightOf(trs, s.cycle.inFlight, e) == InFlightOf(s.trs, s.cycle.inFlight, e);
  }

  lemma RejectKeeps(cfg: Config, w: World, s: State, id: nat)
    requires Inv(cfg, w, s) && id in s.ledger.transactions && id in s.trs
    requires id !in Queue(s.cycle) && id !in s.cycle.inFlight
    ensures Inv(cfg, w, CountRejected(Commit(Bump(s, id), id)))
  {
    hide Inv;
    CommitKeeps(cfg, w, s, id);
    RejectedWithinFlushed(cfg, w, s);
    BumpKeeps(cfg, w, Commit(s, id), id);
    BumpThenCommit(s, id);
    CountRejectedKeeps(cfg, w, Bump(Commit(s, id), id));
  }

  lemma RejectedWithinFlushed(cfg: Config, w: World, s: State)
    requires Inv(cfg, w, s)
    ensures s.ledger.rejected <= s.ledger.flushed
  {
  }

  lemma BumpThenCommit(s: State, id: nat)
    ensures Commit(Bump(s, id), id) == Bump(Commit(s, id), id)
  {
    hide RemoveFirst;
  }

  lemma CountRejectedKeeps(cfg: Config, w: World, s: State)
    requires Inv(cfg, w, s) && s.ledger.rejected < s.ledger.flushed
    ensures Inv(cfg, w, CountRejected(s))
  {
    hide Bounded, Tripped, Spaced, Throttled, Flight, Once, Ordered;
    var l := CountRejected(s).ledger;
    assert forall x :: Live(l, s.cycle, x) <==> Live(s.ledger, s.cycle, x);
  }

  lemma InFlightFacts(cfg: Config, w: World, s: State, id: nat)
    requires Inv(cfg, w, s) && id in s.cycle.inFlight
    ensures id in s.trs && id !in Queue(s.cycle) && s.cycle.toFlush.Some?
  {
  }

  lemma CompleteKeeps(cfg: Config, w: World, s: State, id: nat, outcome: Outcome)
    requires Nondecreasing(w) && Inv(cfg, w, s) && id in s.cycle.inFlight
    ensures Inv(cfg, w, Complete(cfg, w, s, id, outcome).0)
  {
    hide Inv, TrError, Commit, Bump;
    InFlightFacts(cfg, w, s, id);
    if outcome.Failed? {
      TrErrorKeeps(cfg, w, s, id);
    } else {
      LandedKeeps(cfg, w, s, id);
      RemovalKeeps(cfg, w, Landed(s, id), id, outcome);
    }
  }

  lemma RemovalKeeps(cfg: Config, w: World, l: State, id: nat, outcome: Outcome)
    requires Inv(cfg, w, l) && id in l.trs && id !in Queue(l.cycle) && id !in l.cycle.inFlight
    ensures outcome.Success? && id in l.ledger.transactions ==> Inv(cfg, w, Commit(l, id))
    ensures outcome.TooLarge? ==> Inv(cfg, w, if id in l.ledger.transactions then CountRejected(Commit(Bump(l, id), id)) else Bump(l, id))
  {
    if id in l.ledger.transactions {
      if outcome.Success? { CommitKeeps(cfg, w, l, id); } else { RejectKeeps(cfg, w, l, id); }
    } else {
      BumpKeeps(cfg, w, l, id);
    }
  }

  // ---------- flush_next and the events ----------

  lemma LaunchKeeps(cfg: Config, w: World, s: State, checked: int, paced: int)
    requires Nondecreasing(w) && Inv(cfg, w, s) && MayLaunch(cfg, w, s, checked, paced)
    ensures Inv(cfg, w, Launch(cfg, w, s, checked, paced))
  {
    hide Inv, TrError;
    LaunchedKeeps(cfg, w, s, checked, paced);
    var q := Queue(s.cycle);
    assert Queue(s.cycle) != [] && q[|q| - 1] in Launched(w, s, checked, paced).cycle.inFlight;
    if w.raises(s.sends) { TrErrorKeeps(cfg, w, Launched(w, s, checked, paced), q[|q| - 1]); }
  }

  /** The state in which `flush_next` pops a transaction, after its two readings. */
  lemma GuardPermitsLaunch(cfg: Config, w: World, s: State)
    requires Nondecreasing(w) && Inv(cfg, w, s) && Queue(s.cycle) != []
    requires Now(w, s) - s.cycle.flushTime < MAX_FLUSH_DURATION
    requires s.cycle.lastFlush + cfg.throttlingDelay <= Now(w, Tick(s)) && s.cycle.running < cfg.maxParallelism
    ensures Inv(cfg, w, Tick(Tick(s))) && MayLaunch(cfg, w, Tick(Tick(s)), Now(w, s), Now(w, Tick(s)))
  {
    TickKeeps(cfg, w, s);
    TickKeeps(cfg, w, Tick(s));
  }

  lemma CutOffKeeps(cfg: Config, w: World, s: State)
    requires Nondecreasing(w) && Inv(cfg, w, s) && Queue(s.cycle) != []
    ensures Inv(cfg, w, CutOff(Tick(s)))
  {
    TickKeeps(cfg, w, s);
    EmptyQueueKeeps(cfg, w, Tick(s), Some([]));
  }

  lemma TurnKeeps(cfg: Config, w: World, s: State)
    requires Nondecreasing(w) && Inv(cfg, w, s)
    ensures Inv(cfg, w, FlushTurn(cfg, w, s).state)
  {
    hide Inv, Launch, MayLaunch;
    if Queue(s.cycle) == [] {
      if s.cycle.running == 0 { EmptyQueueKeeps(cfg, w, s, None); }
    } else if Now(w, s) - s.cycle.flushTime >= MAX_FLUSH_DURATION {
      CutOffKeeps(cfg, w, s);
    } else if s.cycle.lastFlush + cfg.throttlingDelay <= Now(w, Tick(s)) && s.cycle.running < cfg.maxParallelism {
      GuardPermitsLaunch(cfg, w, s);
      LaunchKeeps(cfg, w, Tick(Tick(s)), Now(w, s), Now(w, Tick(s)));
    } else {
      TickKeeps(cfg, w, s);
      TickKeeps(cfg, w, Tick(s));
      BookkeepingKeeps(cfg, w, Tick(Tick(s)), Schedule(cfg, Tick(Tick(s))).timers, s.flushCount);
    }
  }

  lemma {:induction false} FlushNextKeeps(cfg: Config, w: World, s: State)
    requires Nondecreasing(w) && Inv(cfg, w, s)
    ensures Inv(cfg, w, FlushNext(cfg, w, s))
    decreases |Queue(s.cycle)|
  {
    hide Inv;
    TurnKeeps(cfg, w, s);
    var turn := FlushTurn(cfg, w, s);
    if turn.Again? { FlushNextKeeps(cfg, w, turn.state); }
  }

  lemma FlushKeeps(cfg: Config, w: World, s: State)
    requires Nondecreasing(w) && Inv(cfg, w, s)
    ensures Inv(cfg, w, Flush(cfg, w, s))
  {
    hide Inv, FlushNext, StartCycle;
    if s.cycle.toFlush.None? {
      var due := Due(s.trs, s.ledger.transactions, Now(w, s));
      TickKeeps(cfg, w, s);
      if due != [] {
        StartCycleKeeps(cfg, w, Tick(s), due, Now(w, s));
        FlushNextKeeps(cfg, w, StartCycle(w, Tick(s), due));
      }
      var r := if due != [] then FlushNext(cfg, w, StartCycle(w, Tick(s), due)) else Tick(s);
      BookkeepingKeeps(cfg, w, r, r.timers, r.flushCount + 1);
    }
  }

  lemma StepKeeps(cfg: Config, w: World, s: State, e: Event)
    requires Nondecreasing(w) && Inv(cfg, w, s)
    ensures Inv(cfg, w, Step(cfg, w, s, e))
  {
    hide Inv, FlushNext, Complete, Append, Flush;
    if Enabled(s, e) {
      match e
      case ClockRead => TickKeeps(cfg, w, s);
      case Appended(endpoint, size, created) => AppendKeeps(cfg, w, s, endpoint, size, created);
      case TimerFired =>
        BookkeepingKeeps(cfg, w, s, s.timers - 1, s.flushCount);
        FlushNextKeeps(cfg, w, Fire(s));
      case Responded(id, outcome) =>
        CompleteKeeps(cfg, w, s, id, outcome);
        FlushNextKeeps(cfg, w, Complete(cfg, w, s, id, outcome).0);
      case Flushed => FlushKeeps(cfg, w, s);
    }
  }

  /** The invariant of every run of the forwarder. */
  lemma {:induction false} RunKeeps(cfg: Config, w: World, events: seq<Event>)
    requires Nondecreasing(w)
    ensures Inv(cfg, w, Run(cfg, w, Initial(w), events))
    decreases |events|
  {
    hide Inv, Step, Initial;
    if events == [] {
      InitialInv(cfg, w);
    } else {
      RunKeeps(cfg, w, events[..|events| - 1]);
      StepKeeps(cfg, w, Run(cfg, w, Initial(w), events[..|events| - 1]), events[|events| - 1]);
    }
  }
}
