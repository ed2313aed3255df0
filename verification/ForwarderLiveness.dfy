/** When a flush can get stuck, and that otherwise it cannot. */
module ForwarderLiveness {
  import opened Prelude
  import opened Sorting
  import opened Forwarder
  import opened ForwarderLedger
  import opened ForwarderInvariants
  import opened ForwarderSteps

  /** A flush is open but nothing is left that could ever advance it. */
  predicate Wedged(s: State) {
    s.cycle.toFlush.Some? && s.cycle.inFlight == {} && s.timers == 0
  }

  /** The loop runs and at least one request may be in flight. */
  predicate Serving(cfg: Config) { cfg.ioloopRunning && cfg.maxParallelism >= 1 }

  lemma {:induction false} FlushNextNeverWedges(cfg: Config, w: World, s: State)
    requires Nondecreasing(w) && Inv(cfg, w, s) && Serving(cfg)
    ensures !Wedged(FlushNext(cfg, w, s))
    decreases |Queue(s.cycle)|
  {
    TurnKeeps(cfg, w, s);
    var turn := FlushTurn(cfg, w, s);
    if turn.Again? {
      FlushNextNeverWedges(cfg, w, turn.state);
    } else {
      DoneIsNotWedged(cfg, w, s);
    }
  }

  lemma DoneIsNotWedged(cfg: Config, w: World, s: State)
    requires Flight(cfg, s.cycle) && Serving(cfg) && FlushTurn(cfg, w, s).Done?
    ensures !Wedged(FlushTurn(cfg, w, s).state)
  {
  }

  /** The one way to get stuck: the only request in flight completes, no timer is
      pending, and the transaction has been evicted meanwhile, so that removing it raises
      before `flush_next` is called. */
  predicate CompletesEvicted(s: State, e: Event) {
    && e.Responded?
    && !e.outcome.Failed?
    && s.cycle.inFlight == {e.id}
    && s.timers == 0
    && e.id !in s.ledger.transactions
  }

  lemma StepWedgesIff(cfg: Config, w: World, s: State, e: Event)
    requires Nondecreasing(w) && Inv(cfg, w, s) && Serving(cfg) && !Wedged(s)
    ensures Wedged(Step(cfg, w, s, e)) <==> CompletesEvicted(s, e)
  {
    if Enabled(s, e) {
      match e
      case ClockRead =>
      case Appended(_, _, _) =>
      case Flushed => FlushNeverWedges(cfg, w, s);
      case TimerFired => FlushNextNeverWedges(cfg, w, Fire(s));
      case Responded(id, outcome) => ResponseWedgesIff(cfg, w, s, id, outcome);
    }
  }

  lemma FlushNeverWedges(cfg: Config, w: World, s: State)
    requires Nondecreasing(w) && Inv(cfg, w, s) && Serving(cfg) && !Wedged(s)
    ensures !Wedged(Flush(cfg, w, s))
  {
    if s.cycle.toFlush.None? {
      TickKeeps(cfg, w, s);
      var due := Due(s.trs, s.ledger.transactions, Now(w, s));
      if due != [] {
        StartCycleKeeps(cfg, w, Tick(s), due, Now(w, s));
        FlushNextNeverWedges(cfg, w, StartCycle(w, Tick(s), due));
      }
    }
  }

  lemma ResponseWedgesIff(cfg: Config, w: World, s: State, id: nat, outcome: Outcome)
    requires Nondecreasing(w) && Inv(cfg, w, s) && Serving(cfg) && id in s.cycle.inFlight
    ensures Wedged(Respond(cfg, w, s, id, outcome)) <==> CompletesEvicted(s, Responded(id, outcome))
  {
    hide Inv, FlushNext, Complete, Serving;
    var (r, normal) := Complete(cfg, w, s, id, outcome);
    CompletesNormally(cfg, w, s, id, outcome);
    if normal {
      CompleteKeeps(cfg, w, s, id, outcome);
      FlushNextNeverWedges(cfg, w, r);
    } else {
      InFlightFacts(cfg, w, s, id);
      assert s.cycle.inFlight == (s.cycle.inFlight - {id}) + {id};
    }
  }

  /** A completion returns normally exactly when it is an error or still finds its transaction. */
  lemma CompletesNormally(cfg: Config, w: World, s: State, id: nat, outcome: Outcome)
    ensures var (r, normal) := Complete(cfg, w, s, id, outcome);
      && (normal <==> outcome.Failed? || id in s.ledger.transactions)
      && (!normal ==> r.cycle == Land(s.cycle, id) && r.timers == s.timers)
  {
    hide TrError;
  }

  /** A run in which no evicted transaction completes never gets stuck. */
  lemma {:induction false} RunNeverWedges(cfg: Config, w: World, events: seq<Event>)
    requires Nondecreasing(w) && Serving(cfg)
    requires forall n :: 0 <= n < |events| ==> !CompletesEvicted(Run(cfg, w, Initial(w), events[..n]), events[n])
    ensures !Wedged(Run(cfg, w, Initial(w), events))
    decreases |events|
  {
    hide Inv, Step, CompletesEvicted, Initial;
    if events != [] {
      var n := |events| - 1;
      var before := events[..n];
      assert forall m :: 0 <= m < n ==> before[..m] == events[..m] && before[m] == events[m];
      RunNeverWedges(cfg, w, before);
      RunKeeps(cfg, w, before);
      StepWedgesIff(cfg, w, Run(cfg, w, Initial(w), before), events[n]);
    } else {
      InitialNotWedged(w);
    }
  }

  lemma InitialNotWedged(w: World)
    ensures !Wedged(Initial(w))
  {
  }

  /** Being stuck is for good: no event of any kind dispatches anything ever again. */
  lemma {:induction false} WedgedForever(cfg: Config, w: World, s: State, events: seq<Event>)
    requires Wedged(s)
    ensures var r := Run(cfg, w, s, events); Wedged(r) && r.history.log == s.history.log
    decreases |events|
  {
    if events != [] { WedgedForever(cfg, w, s, events[..|events| - 1]); }
  }

  // ---------- draining ----------

  /** The transactions that have been answered in a run. */
  function Answered(events: seq<Event>): set<nat>
    decreases |events|
  {
    if events == [] then {}
    else
      var n := |events| - 1;
      Answered(events[..n]) + if events[n].Responded? then {events[n].id} else {}
  }

  /** A completion that does not raise: an error, or one that still finds its transaction. */
  predicate ReturnsNormally(s: State, e: Event)
    requires e.Responded?
  {
    e.outcome.Failed? || e.id in s.ledger.transactions
  }

  lemma DrainedFlushNext(cfg: Config, w: World, s: State)
    requires s.cycle.toFlush == Some([])
    ensures FlushNext(cfg, w, s) == if s.cycle.running == 0 then Settle(s) else s
  {
  }

  lemma DrainedCompletion(cfg: Config, w: World, s: State, id: nat, outcome: Outcome)
    requires s.cycle.toFlush == Some([])
    ensures var r := Complete(cfg, w, s, id, outcome).0.cycle;
      r.toFlush == Some([]) && r.inFlight == s.cycle.inFlight - {id}
  {
  }

  lemma DrainedResponse(cfg: Config, w: World, s: State, e: Event)
    requires Nondecreasing(w) && Inv(cfg, w, s) && s.cycle.toFlush == Some([])
    requires e.Responded? && e.id in s.cycle.inFlight
    ensures var r := Step(cfg, w, s, e).cycle;
      && r.inFlight == s.cycle.inFlight - {e.id}
      && r.toFlush == if r.inFlight == {} && ReturnsNormally(s, e) then None else Some([])
  {
    hide Inv, Complete, FlushNext;
    var c := Complete(cfg, w, s, e.id, e.outcome).0;
    CompletesNormally(cfg, w, s, e.id, e.outcome);
    DrainedCompletion(cfg, w, s, e.id, e.outcome);
    CompleteKeeps(cfg, w, s, e.id, e.outcome);
    CountIsExact(cfg, w, c);
    DrainedFlushNext(cfg, w, c);
  }

  lemma CountIsExact(cfg: Config, w: World, s: State)
    requires Inv(cfg, w, s)
    ensures s.cycle.running == 0 <==> s.cycle.inFlight == {}
  {
  }

  /** One event while requests are out and nothing is queued: only responses matter, and
      the last of them ends the flush exactly when it returns normally. */
  lemma DrainedStep(cfg: Config, w: World, s: State, e: Event)
    requires Nondecreasing(w) && Inv(cfg, w, s) && s.cycle.toFlush == Some([]) && s.cycle.inFlight != {}
    ensures var r := Step(cfg, w, s, e).cycle;
      && r.inFlight == s.cycle.inFlight - (if e.Responded? then {e.id} else {})
      && r.toFlush == if r.inFlight == {} && e.Responded? && ReturnsNormally(s, e) then None else Some([])
  {
    hide Inv, Append, Respond;
    if Enabled(s, e) {
      match e
      case ClockRead =>
      case Appended(endpoint, size, created) => AppendLeavesFlush(cfg, s, endpoint, size, created);
      case Flushed =>
      case TimerFired =>
        CountIsExact(cfg, w, s);
        DrainedFlushNext(cfg, w, Fire(s));
      case Responded(id, outcome) => DrainedResponse(cfg, w, s, e);
    }
  }

  lemma AppendLeavesFlush(cfg: Config, s: State, endpoint: string, size: nat, created: int)
    ensures Append(cfg, s, endpoint, size, created).cycle == s.cycle
  {
  }

  /** Once the queue is empty, whatever happens in between and whatever the outcomes: the
      flush stays open until the last request in flight is answered, and that answer ends
      it, so that a new flush can start, if and only if it returns normally. */
  lemma {:induction false} DrainEndsFlushIff(cfg: Config, w: World, s: State, events: seq<Event>)
    requires Nondecreasing(w) && Inv(cfg, w, s) && s.cycle.toFlush == Some([]) && s.cycle.inFlight != {}
    requires forall n :: 0 <= n < |events| ==> !(s.cycle.inFlight <= Answered(events[..n]))
    ensures var r := Run(cfg, w, s, events); var n := |events| - 1;
      && Inv(cfg, w, r)
      && r.cycle.inFlight == s.cycle.inFlight - Answered(events)
      && (if s.cycle.inFlight <= Answered(events)
          then && events != [] && events[n].Responded?
               && (r.cycle.toFlush == None <==> ReturnsNormally(Run(cfg, w, s, events[..n]), events[n]))
          else r.cycle.toFlush == Some([]))
    decreases |events|
  {
    hide Inv, Step, ReturnsNormally;
    if events != [] {
      var n := |events| - 1;
      assert forall m :: 0 <= m < n ==> events[..n][..m] == events[..m];
      DrainEndsFlushIff(cfg, w, s, events[..n]);
      var before := Run(cfg, w, s, events[..n]);
      assert !(s.cycle.inFlight <= Answered(events[..n]));
      DrainedStep(cfg, w, before, events[n]);
      StepKeeps(cfg, w, before, events[n]);
    }
  }
}
