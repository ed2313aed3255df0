/** Concrete runs on which the plausible stronger statements fail. */
module ForwarderWitnesses {
  import opened Prelude
  import opened Sorting
  import opened Forwarder
  import opened ForwarderInvariants
  import opened ForwarderSteps
  import opened ForwarderLiveness
  import opened ForwarderTheorems

  // ---------- unfolding short runs ----------

  lemma RunSnoc(cfg: Config, w: World, s: State, events: seq<Event>, e: Event)
    ensures Run(cfg, w, s, events + [e]) == Step(cfg, w, Run(cfg, w, s, events), e)
  {
    assert (events + [e])[..|events|] == events;
  }

  lemma RunThree(cfg: Config, w: World, s: State, e1: Event, e2: Event, e3: Event)
    ensures Run(cfg, w, s, [e1, e2, e3]) == Step(cfg, w, Step(cfg, w, Step(cfg, w, s, e1), e2), e3)
  {
    hide Step;
    RunSnoc(cfg, w, s, [], e1);
    RunSnoc(cfg, w, s, [e1], e2);
    RunSnoc(cfg, w, s, [e1, e2], e3);
    assert [e1] == [] + [e1] && [e1, e2] == [e1] + [e2] && [e1, e2, e3] == [e1, e2] + [e3];
  }

  lemma FlushOrderOne(trs: map<nat, Tr>, id: nat)
    ensures FlushOrder(trs, [id]) == [id]
  {
    var key := (0 - At(trs, id).errors, id);
    assert seq(1, i requires 0 <= i < 1 => (0 - At(trs, [id][i]).errors, [id][i])) == [key];
    assert SortOrder([key]) == [0];
  }

  lemma EvictionOrderOne(trs: map<nat, Tr>, id: nat)
    ensures EvictionOrder(trs, [id]) == [id]
  {
    var key := (-At(trs, id).nextFlush, 0);
    assert seq(1, i requires 0 <= i < 1 => (-At(trs, [id][i]).nextFlush, 0)) == [key];
    assert SortOrder([key]) == [0];
  }

  /** Among two transactions without errors the newer one is popped first. */
  lemma FlushOrderTwo(trs: map<nat, Tr>)
    requires At(trs, 1).errors == 0 && At(trs, 2).errors == 0
    ensures FlushOrder(trs, [1, 2]) == [1, 2]
  {
    FlushOrderMeaning(trs, [1, 2]);
    var q := FlushOrder(trs, [1, 2]);
    assert |q| == 2 && q[0] in q && q[1] in q;
    assert Precedes(At(trs, q[1]).errors, q[1], At(trs, q[0]).errors, q[0]);
  }

  // ---------- an eviction that wedges ----------

  const TIGHT := Config(0, 10, 0, 1, 4, true)
  const FROZEN := World(n => 0, n => false)

  lemma LaunchTheOnlyOne(s: State, id: nat)
    requires Queue(s.cycle) == [id] && s.cycle.running == 0 && s.cycle.flushTime == 0 && s.cycle.lastFlush == 0
    ensures FlushNext(TIGHT, FROZEN, s) == Launched(FROZEN, Tick(Tick(s)), 0, 0)
  {
    var l := Launched(FROZEN, Tick(Tick(s)), 0, 0);
    assert Launch(TIGHT, FROZEN, Tick(Tick(s)), 0, 0) == l;
    assert FlushTurn(TIGHT, FROZEN, s) == Again(l);
    assert FlushTurn(TIGHT, FROZEN, l) == Done(l);
  }

  lemma FirstInFlight(s: State)
    requires s == Append(TIGHT, Initial(FROZEN), "a", 6, 0)
    ensures var r := Flush(TIGHT, FROZEN, s);
      && r.cycle.toFlush == Some([]) && r.cycle.inFlight == {1} && r.timers == 0
      && r.ledger == s.ledger && r.trs == s.trs
      && s.ledger.transactions == [1] && s.ledger.totalSize == 6 && At(s.trs, 1).size == 6 && s.ledger.counter == 1
  {
    assert [1][..0] == [];
    assert Due(s.trs, [1][..0], 0) == [];
    assert Due(s.trs, [1], 0) == [1];
    FlushOrderOne(s.trs, 1);
    LaunchTheOnlyOne(StartCycle(FROZEN, Tick(s), [1]), 1);
  }

  lemma SecondEvictsFirst(s: State)
    requires s.ledger.transactions == [1] && s.ledger.totalSize == 6 && At(s.trs, 1).size == 6 && s.ledger.counter == 1
    ensures Append(TIGHT, s, "a", 6, 0).ledger.transactions == [2]
  {
    EvictionOrderOne(s.trs, 1);
    assert [1][..0] == [];
    assert Evict(TIGHT, s.trs, s.ledger, [1][..0], 6) == s.ledger;
    assert Evict(TIGHT, s.trs, s.ledger, [1], 6) == EvictOne(s.trs, s.ledger, 1);
  }

  /** Evicting the only request in flight: when it then succeeds, the flush stays open
      for good, with another transaction waiting. */
  lemma EvictionCanWedge()
    ensures var events := [Appended("a", 6, 0), Flushed, Appended("a", 6, 0), Responded(1, Success)];
      var r := Run(TIGHT, FROZEN, Initial(FROZEN), events);
      Nondecreasing(FROZEN) && Serving(TIGHT) && Wedged(r) && r.ledger.transactions == [2]
  {
    hide Run, Append, Flush;
    var s0 := Initial(FROZEN);
    var e1, e2, e3, e4 := Appended("a", 6, 0), Flushed, Appended("a", 6, 0), Responded(1, Success);
    var s1 := Append(TIGHT, s0, "a", 6, 0);
    var s2 := Flush(TIGHT, FROZEN, s1);
    var s3 := Append(TIGHT, s2, "a", 6, 0);
    FirstInFlight(s1);
    SecondEvictsFirst(s2);
    AppendLeavesCycle(s2);
    CompletionWedges(s3);
    RunThree(TIGHT, FROZEN, s0, e1, e2, e3);
    RunSnoc(TIGHT, FROZEN, s0, [e1, e2, e3], e4);
    assert [e1, e2, e3, e4] == [e1, e2, e3] + [e4];
  }

  lemma AppendLeavesCycle(s: State)
    ensures Append(TIGHT, s, "a", 6, 0).cycle == s.cycle && Append(TIGHT, s, "a", 6, 0).timers == s.timers
  {
  }

  lemma CompletionWedges(s: State)
    requires s.cycle.toFlush == Some([]) && s.cycle.inFlight == {1} && s.timers == 0 && s.ledger.transactions == [2]
    ensures var r := Step(TIGHT, FROZEN, s, Responded(1, Success)); Wedged(r) && r.ledger.transactions == [2]
  {
  }

  // ---------- a skip that moves the next flush earlier ----------

  const STRICT := Config(0, 100, 0, 1, 1, true)
  /** Half past a second, and every send raises. */
  const RAISING := World(n => 500_000, n => true)

  lemma AppendWithRoom(cfg: Config, s: State, endpoint: string, size: nat, created: int)
    requires s.ledger.totalSize + size <= cfg.maxQueueSize
    ensures Append(cfg, s, endpoint, size, created) ==
            s.(trs := s.trs[s.ledger.counter + 1 := NewTr(size, endpoint, created)], ledger := Enqueue(s.ledger, size))
  {
    hide EvictionOrder, Evict;
  }

  lemma TwoDue(s: State)
    requires s == Append(STRICT, Append(STRICT, Initial(RAISING), "a", 1, 500_000), "a", 1, 500_000)
    ensures s.ledger.transactions == [1, 2] && s.cycle == Initial(RAISING).cycle
    ensures At(s.trs, 1) == At(s.trs, 2) == NewTr(1, "a", 500_000)
    ensures Due(s.trs, s.ledger.transactions, 500_000) == [1, 2] && FlushOrder(s.trs, [1, 2]) == [1, 2]
  {
    hide Append, Due, FlushOrder;
    var s0 := Initial(RAISING);
    AppendWithRoom(STRICT, s0, "a", 1, 500_000);
    AppendWithRoom(STRICT, Append(STRICT, s0, "a", 1, 500_000), "a", 1, 500_000);
    AllDue(s.trs, [1, 2], 500_000);
    FlushOrderTwo(s.trs);
  }

  lemma RaiseAndSkip(c: State)
    requires Queue(c.cycle) == [1, 2] && c.cycle.running == 0 && c.cycle.flushTime == 500_000 && c.cycle.lastFlush == 500_000
    requires At(c.trs, 1) == At(c.trs, 2) == NewTr(1, "a", 500_000) && c.cycle.endpointErrors == map[]
    ensures At(FlushNext(STRICT, RAISING, c).trs, 1) == Tr(1, "a", 0, 0, Some(500_000), 500_000)
  {
    var l := Launched(RAISING, Tick(Tick(c)), 500_000, 500_000);
    assert [1, 2][..1] == [1];
    var charged := Charge(STRICT, RAISING, l, 2);
    var t := Trip(STRICT, RAISING, charged, "a");
    ChargeTwo(l, charged);
    SkipOne(charged, t);
    assert TrError(STRICT, RAISING, l, 2) == t;
    hide Charge, Trip, SkipEndpoint, TrError;
    assert FlushTurn(STRICT, RAISING, c) == Again(t);
    assert FlushTurn(STRICT, RAISING, t) == Done(Settle(t));
    assert FlushNext(STRICT, RAISING, t) == Settle(t);
  }

  lemma ChargeTwo(l: State, charged: State)
    requires Queue(l.cycle) == [1] && At(l.trs, 1) == At(l.trs, 2) == NewTr(1, "a", 500_000)
    requires l.cycle.endpointErrors == map[] && charged == Charge(STRICT, RAISING, l, 2)
    ensures Queue(charged.cycle) == [1] && EndpointErrors(charged.cycle, "a") == 1
    ensures At(charged.trs, 1) == NewTr(1, "a", 500_000)
    ensures charged.cycle.running == l.cycle.running - 1
  {
  }

  lemma SkipOne(charged: State, t: State)
    requires Queue(charged.cycle) == [1] && At(charged.trs, 1) == NewTr(1, "a", 500_000)
    requires t == Trip(STRICT, RAISING, charged, "a")
    ensures At(t.trs, 1) == Tr(1, "a", 0, 0, Some(500_000), 500_000) && Queue(t.cycle) == [] && t.cycle.running == charged.cycle.running
  {
    assert [1][..0] == [];
    assert SkipEndpoint(STRICT, RAISING, charged.trs, charged.ticks, [1][..0], "a") == Skipped(charged.trs, charged.ticks, []);
  }

  /** A transaction created half a second past the second and skipped in that second is
      due half a second earlier than before, although it never failed. */
  lemma SkippingCanMoveEarlier()
    ensures var events := [Appended("a", 1, 500_000), Appended("a", 1, 500_000), Flushed];
      var tr := At(Run(STRICT, RAISING, Initial(RAISING), events).trs, 1);
      Nondecreasing(RAISING) && tr.errors == 0 && tr.nextFlush == 0
  {
    hide Run, FlushNext;
    var s0 := Initial(RAISING);
    var e := Appended("a", 1, 500_000);
    var s := Append(STRICT, Append(STRICT, s0, "a", 1, 500_000), "a", 1, 500_000);
    TwoDue(s);
    RaiseAndSkip(StartCycle(RAISING, Tick(s), [1, 2]));
    RunThree(STRICT, RAISING, s0, e, e, Flushed);
    hide Append, Due, FlushOrder;
    assert Run(STRICT, RAISING, s0, [e, e, Flushed]) == Flush(STRICT, RAISING, s);
  }
}
