/**
 The forwarder's replay queue (transaction.py) as a state machine.

 Times are integer microseconds. Every reading of the clock takes the next value
 of `World.clock`, any nondecreasing sequence; every attempt to send takes the next
 value of `World.raises`, which says whether `tr.flush()` raised. Nothing else is
 assumed about the environment, so a statement about all worlds and all event
 sequences covers every interleaving of appends, periodic flushes, timers and
 responses.
 */
module Forwarder {
  import opened Prelude
  import opened Sorting

  const SECOND := 1_000_000
  const MAX_FLUSH_DURATION := 10 * SECOND

  datatype Config = Config(
    maxWaitForReplay: nat,
    maxQueueSize: int,
    throttlingDelay: int,
    maxParallelism: nat,
    maxEndpointErrors: nat,
    ioloopRunning: bool)

  datatype World = World(clock: nat -> int, raises: nat -> bool)

  ghost predicate Nondecreasing(w: World) {
    forall i: nat, j: nat :: i <= j ==> w.clock(i) <= w.clock(j)
  }

  /** A transaction's fields; `created` and `backoffAt` are history: when it was created,
      and the clock reading of its latest `compute_next_flush`. */
  datatype Tr = Tr(size: nat, endpoint: string, errors: nat, nextFlush: int, backoffAt: Option<int>, created: int)

  function NewTr(size: nat, endpoint: string, created: int): Tr {
    Tr(size, endpoint, 0, created, None, created)
  }

  /** The list of uncommitted transactions, by id, and its counters; `evicted` is history. */
  datatype Ledger = Ledger(
    transactions: seq<nat>, totalCount: int, totalSize: int,
    received: nat, flushed: nat, rejected: nat, counter: nat,
    evicted: seq<nat>)

  /** The three clock readings of a dispatch: for the cut-off test, for the throttle
      test, and the one stamped on `_last_flush`. */
  datatype Dispatch = Dispatch(id: nat, errors: nat, checked: int, paced: int, at: int)
  datatype Failure = Failure(id: nat, errors: nat, at: int)

  /** The current flush; `inFlight` is history. */
  datatype Cycle = Cycle(
    toFlush: Option<seq<nat>>, running: int, flushTime: int, lastFlush: int,
    endpointErrors: map<string, nat>, finished: nat, inFlight: set<nat>)

  /** History: all dispatches of the run, those of the current flush starting at `first`,
      and all failures that were put off for replay, those of the current flush starting
      at `firstFailure`. */
  datatype History = History(log: seq<Dispatch>, first: nat, failures: seq<Failure>, firstFailure: nat)

  /** `timers` counts the callbacks the loop still holds. */
  datatype State = State(
    trs: map<nat, Tr>, ledger: Ledger, cycle: Cycle, history: History,
    flushCount: nat, timers: nat, ticks: nat, sends: nat)

  /** The object a reference denotes; every id in use is registered (see `Registered`). */
  function At(trs: map<nat, Tr>, id: nat): Tr {
    if id in trs then trs[id] else NewTr(0, "", 0)
  }

  function Now(w: World, s: State): int { w.clock(s.ticks) }

  function Tick(s: State): State { s.(ticks := s.ticks + 1) }

  function Queue(c: Cycle): seq<nat> {
    if c.toFlush.Some? then c.toFlush.value else []
  }

  function EndpointErrors(c: Cycle, endpoint: string): nat {
    if endpoint in c.endpointErrors then c.endpointErrors[endpoint] else 0
  }

  function Initial(w: World): State {
    State(map[], Ledger([], 0, 0, 0, 0, 0, 0, []),
          Cycle(None, 0, 0, w.clock(0), map[], 0, {}), History([], 0, [], 0), 0, 0, 1, 0)
  }

  // ---------- back-off ----------

  function Delay(cfg: Config, errors: nat): nat {
    if errors * 20 * SECOND > cfg.maxWaitForReplay then cfg.maxWaitForReplay else errors * 20 * SECOND
  }

  function WholeSecond(t: int): int { t - t % SECOND }

  function Backoff(cfg: Config, tr: Tr, now: int): Tr {
    tr.(nextFlush := WholeSecond(now + Delay(cfg, tr.errors)), backoffAt := Some(now))
  }

  // ---------- append ----------

  function RemoveFirst<T(==)>(xs: seq<T>, x: T): seq<T> {
    if xs == [] then []
    else if xs[0] == x then xs[1..]
    else [xs[0]] + RemoveFirst(xs[1..], x)
  }

  function Pick<T>(xs: seq<T>, order: seq<nat>): seq<T>
    requires forall i :: 0 <= i < |order| ==> order[i] < |xs|
  {
    seq(|order|, i requires 0 <= i < |order| => xs[order[i]])
  }

  /** Eviction candidates: latest next flush first, oldest first among equals. */
  function EvictionOrder(trs: map<nat, Tr>, ids: seq<nat>): seq<nat> {
    Pick(ids, SortOrder(seq(|ids|, i requires 0 <= i < |ids| => (-At(trs, ids[i]).nextFlush, 0))))
  }

  function EvictOne(trs: map<nat, Tr>, l: Ledger, id: nat): Ledger {
    l.(transactions := RemoveFirst(l.transactions, id), totalCount := l.totalCount - 1,
       totalSize := l.totalSize - At(trs, id).size, evicted := l.evicted + [id])
  }

  /** The loop over candidates: one is removed whenever the queue is still too big. */
  function Evict(cfg: Config, trs: map<nat, Tr>, l: Ledger, candidates: seq<nat>, size: nat): Ledger
    decreases |candidates|
  {
    if candidates == [] then l
    else
      var before := Evict(cfg, trs, l, candidates[..|candidates| - 1], size);
      if before.totalSize + size > cfg.maxQueueSize
      then EvictOne(trs, before, candidates[|candidates| - 1])
      else before
  }

  function MakeRoom(cfg: Config, trs: map<nat, Tr>, l: Ledger, size: nat): Ledger {
    if l.totalSize + size > cfg.maxQueueSize
    then Evict(cfg, trs, l, EvictionOrder(trs, l.transactions), size)
    else l
  }

  /** The last part of `append`, once there is room. */
  function Enqueue(l: Ledger, size: nat): Ledger {
    var id := l.counter + 1;
    l.(counter := id, transactions := l.transactions + [id], totalCount := l.totalCount + 1,
       received := l.received + 1, totalSize := l.totalSize + size)
  }

  /** `append` of any transaction that has no id yet. */
  function AppendTr(cfg: Config, s: State, tr: Tr): State {
    s.(trs := s.trs[s.ledger.counter + 1 := tr],
       ledger := Enqueue(MakeRoom(cfg, s.trs, s.ledger, tr.size), tr.size))
  }

  /** `append` as the forwarder uses it. */
  function Append(cfg: Config, s: State, endpoint: string, size: nat, created: int): State {
    AppendTr(cfg, s, NewTr(size, endpoint, created))
  }

  // ---------- completions ----------

  function Land(c: Cycle, id: nat): Cycle {
    c.(running := c.running - 1, finished := c.finished + 1, inFlight := c.inFlight - {id})
  }

  /** The loop of `tr_error` over the current flush: transactions of the failing
      endpoint are put off, each with its own clock reading, the others kept. */
  datatype Skipped = Skipped(trs: map<nat, Tr>, ticks: nat, kept: seq<nat>)

  function SkipEndpoint(cfg: Config, w: World, trs: map<nat, Tr>, ticks: nat, queue: seq<nat>, endpoint: string): Skipped
    decreases |queue|
  {
    if queue == [] then Skipped(trs, ticks, [])
    else
      var r := SkipEndpoint(cfg, w, trs, ticks, queue[..|queue| - 1], endpoint);
      var id := queue[|queue| - 1];
      if At(r.trs, id).endpoint != endpoint
      then r.(kept := r.kept + [id])
      else Skipped(r.trs[id := Backoff(cfg, At(r.trs, id), w.clock(r.ticks))], r.ticks + 1, r.kept)
  }

  lemma {:induction false} SkipShrinks(cfg: Config, w: World, trs: map<nat, Tr>, ticks: nat, queue: seq<nat>,
        endpoint: string)
    ensures |SkipEndpoint(cfg, w, trs, ticks, queue, endpoint).kept| <= |queue|
    decreases |queue|
  {
    if queue != [] { SkipShrinks(cfg, w, trs, ticks, queue[..|queue| - 1], endpoint); }
  }

  /** The first half of `tr_error`: the transaction and its endpoint are charged. */
  function Charge(cfg: Config, w: World, s: State, id: nat): State {
    var tr := At(s.trs, id).(errors := At(s.trs, id).errors + 1);
    var c := Land(s.cycle, id);
    s.(trs := s.trs[id := Backoff(cfg, tr, Now(w, s))], ticks := s.ticks + 1,
       cycle := c.(endpointErrors := c.endpointErrors[tr.endpoint := EndpointErrors(c, tr.endpoint) + 1]),
       history := s.history.(failures := s.history.failures + [Failure(id, tr.errors, Now(w, s))]))
  }

  /** The second half: exactly at the threshold the endpoint leaves the flush. */
  function Trip(cfg: Config, w: World, s: State, endpoint: string): State {
    var r := SkipEndpoint(cfg, w, s.trs, s.ticks, Queue(s.cycle), endpoint);
    s.(trs := r.trs, ticks := r.ticks, cycle := s.cycle.(toFlush := Some(r.kept)))
  }

  /** Iterating over `None` would raise; `ForwarderInvariants.Flight` rules it out. */
  function TrError(cfg: Config, w: World, s: State, id: nat): (r: State)
    ensures |Queue(r.cycle)| <= |Queue(s.cycle)|
  {
    var endpoint := At(s.trs, id).endpoint;
    var c := Charge(cfg, w, s, id);
    if EndpointErrors(c.cycle, endpoint) == cfg.maxEndpointErrors then
      SkipShrinks(cfg, w, c.trs, c.ticks, Queue(s.cycle), endpoint);
      Trip(cfg, w, c, endpoint)
    else c
  }

  function Commit(s: State, id: nat): State {
    var l := s.ledger;
    s.(ledger := l.(transactions := RemoveFirst(l.transactions, id), totalCount := l.totalCount - 1,
                    totalSize := l.totalSize - At(s.trs, id).size, flushed := l.flushed + 1))
  }

  // ---------- flush_next ----------

  function Launched(w: World, s: State, checked: int, paced: int): State
    requires Queue(s.cycle) != []
  {
    var q := Queue(s.cycle);
    var id := q[|q| - 1];
    s.(cycle := s.cycle.(toFlush := Some(q[..|q| - 1]), running := s.cycle.running + 1,
                         lastFlush := Now(w, s), inFlight := s.cycle.inFlight + {id}),
       history := s.history.(log := s.history.log + [Dispatch(id, At(s.trs, id).errors, checked, paced, Now(w, s))]),
       ticks := s.ticks + 1, sends := s.sends + 1)
  }

  /** Pop the last queued transaction and send it; a send that raises is an error. */
  function Launch(cfg: Config, w: World, s: State, checked: int, paced: int): (r: State)
    requires Queue(s.cycle) != []
    ensures |Queue(r.cycle)| < |Queue(s.cycle)|
  {
    var q := Queue(s.cycle);
    var l := Launched(w, s, checked, paced);
    if w.raises(s.sends) then TrError(cfg, w, l, q[|q| - 1]) else l
  }

  function CutOff(s: State): State { s.(cycle := s.cycle.(toFlush := Some([]))) }

  function Settle(s: State): State { s.(cycle := s.cycle.(toFlush := None)) }

  function Schedule(cfg: Config, s: State): State {
    s.(timers := s.timers + if cfg.ioloopRunning then 1 else 0)
  }

  /** One activation of `flush_next`: what it did, and whether it calls itself again. */
  datatype Turn = Again(state: State) | Done(state: State)

  function FlushTurn(cfg: Config, w: World, s: State): (r: Turn)
    ensures r.Again? ==> |Queue(r.state.cycle)| < |Queue(s.cycle)|
  {
    if Queue(s.cycle) != [] then
      var t := Tick(s);
      var u := Tick(t);
      if Now(w, s) - s.cycle.flushTime >= MAX_FLUSH_DURATION then Again(CutOff(t))
      else if s.cycle.lastFlush + cfg.throttlingDelay <= Now(w, t) && s.cycle.running < cfg.maxParallelism
      then Again(Launch(cfg, w, u, Now(w, s), Now(w, t)))
      else if s.cycle.running < cfg.maxParallelism then Done(Schedule(cfg, u))
      else Done(u)
    else if s.cycle.running == 0 then Done(Settle(s))
    else Done(s)
  }

  function FlushNext(cfg: Config, w: World, s: State): State
    decreases |Queue(s.cycle)|
  {
    match FlushTurn(cfg, w, s)
    case Again(s') => FlushNext(cfg, w, s')
    case Done(s') => s'
  }

  // ---------- flush ----------

  function Due(trs: map<nat, Tr>, ids: seq<nat>, now: int): seq<nat>
    decreases |ids|
  {
    if ids == [] then []
    else
      var before := Due(trs, ids[..|ids| - 1], now);
      var id := ids[|ids| - 1];
      if At(trs, id).nextFlush <= now then before + [id] else before
  }

  /** Ascending by (minus errors, id): the last one has fewest errors and is newest. */
  function FlushOrder(trs: map<nat, Tr>, ids: seq<nat>): seq<nat> {
    Pick(ids, SortOrder(seq(|ids|, i requires 0 <= i < |ids| => (0 - At(trs, ids[i]).errors, ids[i]))))
  }

  function StartCycle(w: World, s: State, due: seq<nat>): State {
    s.(cycle := s.cycle.(endpointErrors := map[], finished := 0,
                         toFlush := Some(FlushOrder(s.trs, due)), flushTime := Now(w, s)),
       history := s.history.(first := |s.history.log|, firstFailure := |s.history.failures|),
       ticks := s.ticks + 1)
  }

  function CountFlush(s: State): State { s.(flushCount := s.flushCount + 1) }

  function Flush(cfg: Config, w: World, s: State): State {
    if s.cycle.toFlush.Some? then s
    else
      var due := Due(s.trs, s.ledger.transactions, Now(w, s));
      CountFlush(if due != [] then FlushNext(cfg, w, StartCycle(w, Tick(s), due)) else Tick(s))
  }

  // ---------- events ----------

  datatype Outcome = Success | Failed | TooLarge

  function Landed(s: State, id: nat): State { s.(cycle := Land(s.cycle, id)) }

  function Bump(s: State, id: nat): State {
    s.(trs := s.trs[id := At(s.trs, id).(errors := At(s.trs, id).errors + 1)])
  }

  function CountRejected(s: State): State { s.(ledger := s.ledger.(rejected := s.ledger.rejected + 1)) }

  /** `on_response` as far as the completion goes, and whether it returned normally:
      `_transactions.remove` raises when the transaction was evicted meanwhile. */
  function Complete(cfg: Config, w: World, s: State, id: nat, outcome: Outcome): (State, bool) {
    match outcome
    case Failed => (TrError(cfg, w, s, id), true)
    case Success =>
      if id in s.ledger.transactions then (Commit(Landed(s, id), id), true) else (Landed(s, id), false)
    case TooLarge =>
      var b := Bump(Landed(s, id), id);
      if id in s.ledger.transactions then (CountRejected(Commit(b, id)), true) else (b, false)
  }

  /** A raised exception reaches the loop before `flush_next` is called. */
  function Respond(cfg: Config, w: World, s: State, id: nat, outcome: Outcome): State
  {
    var (r, normal) := Complete(cfg, w, s, id, outcome);
    if normal then FlushNext(cfg, w, r) else r
  }

  /** `ClockRead` is a reading taken elsewhere, such as when a transaction is created. */
  datatype Event =
    | ClockRead
    | Appended(endpoint: string, size: nat, created: int)
    | Flushed
    | TimerFired
    | Responded(id: nat, outcome: Outcome)

  predicate Enabled(s: State, e: Event) {
    match e
    case ClockRead => true
    case Appended(_, _, _) => true
    case Flushed => true
    case TimerFired => s.timers > 0
    case Responded(id, _) => id in s.cycle.inFlight
  }

  function Fire(s: State): State
    requires s.timers > 0
  {
    s.(timers := s.timers - 1)
  }

  /** One step of the event loop; an event that cannot occur changes nothing. */
  function Step(cfg: Config, w: World, s: State, e: Event): State {
    if !Enabled(s, e) then s
    else match e
      case ClockRead => Tick(s)
      case Appended(endpoint, size, created) => Append(cfg, s, endpoint, size, created)
      case Flushed => Flush(cfg, w, s)
      case TimerFired => FlushNext(cfg, w, Fire(s))
      case Responded(id, outcome) => Respond(cfg, w, s, id, outcome)
  }

  function Run(cfg: Config, w: World, s: State, events: seq<Event>): State
    decreases |events|
  {
    if events == [] then s
    else Step(cfg, w, Run(cfg, w, s, events[..|events| - 1]), events[|events| - 1])
  }
}
