/** How many transactions one flush can dispatch, and exactly when ceil(duration / delay). */
module ForwarderPacing {
  import opened Prelude
  import opened Sorting
  import opened Forwarder
  import opened ForwarderLedger
  import opened ForwarderInvariants
  import opened ForwarderSteps
  import opened ForwarderTheorems

  /** What the cut-off and the throttle together suggest. */
  function Most(delay: nat): int
    requires delay > 0
  {
    CeilDiv(MAX_FLUSH_DURATION, delay)
  }

  /** In every run with this delay, a flush whose two readings before the last dispatch are
      at most `gap` apart stays within ceil(duration / delay). */
  ghost predicate AlwaysWithin(delay: nat, gap: nat)
    requires delay > 0
  {
    forall cfg: Config, w: World, s: State ::
      Nondecreasing(w) && cfg.throttlingDelay == delay && Reachable(cfg, w, s) && GapIsAtMost(s, gap) ==>
        DispatchCount(s.history) <= Most(delay)
  }

  predicate GapIsAtMost(s: State, gap: nat) {
    DispatchCount(s.history) >= 1 && s.history.log != [] && Gap(s.history.log[|s.history.log| - 1]) <= gap
  }

  /** The bound holds in all these runs if and only if the gap fits into what rounding up
      leaves over. */
  lemma WithinCeilIff(delay: nat, gap: nat)
    requires delay > 0
    ensures AlwaysWithin(delay, gap) <==> gap <= Most(delay) * delay - MAX_FLUSH_DURATION
  {
    hide Reachable, CeilDiv, Gap, DispatchCount;
    if gap <= Most(delay) * delay - MAX_FLUSH_DURATION {
      forall cfg: Config, w: World, s: State
        | Nondecreasing(w) && cfg.throttlingDelay == delay && Reachable(cfg, w, s) && GapIsAtMost(s, gap)
        ensures DispatchCount(s.history) <= Most(delay)
      {
        FlushBound(cfg, w, s);
        var last := Gap(s.history.log[|s.history.log| - 1]);
        CeilDivMeans(MAX_FLUSH_DURATION + last, delay, Most(delay));
      }
    } else {
      MostStraddles(delay);
      var cfg, w, s := OneMore(delay);
      assert GapIsAtMost(s, gap);
    }
  }

  // ---------- a run with one dispatch more ----------

  /** The k-th beat of a clock that advances by the delay. */
  function Beat(delay: nat, k: nat): nat { (k + 1) * delay }

  lemma NextBeat(delay: nat, k: nat)
    ensures Beat(delay, k + 1) == Beat(delay, k) + delay && Beat(delay, 0) == delay
  {
  }

  lemma BeatsAscend(delay: nat, j: nat, k: nat)
    requires j <= k
    ensures Beat(delay, j) <= Beat(delay, k)
  {
    ScaleMonotone(j + 1, k + 1, delay);
  }

  /** The m-th reading of a flush, three for each dispatch: all on the beat, but the
      cut-off test of the last dispatch reads the last moment at which it still passes. */
  function Reading(delay: nat, last: nat, m: nat): nat {
    if m < 3 * last then Beat(delay, m / 3)
    else if m == 3 * last then delay + MAX_FLUSH_DURATION - 1
    else Beat(delay, last)
  }

  function Metronome(delay: nat, last: nat): World {
    World(i => if i == 0 then 0 else if i <= 2 then delay else Reading(delay, last, i - 3), i => false)
  }

  /** The last moment before the cut-off lies between the last two beats. */
  ghost predicate Straddles(delay: nat, last: nat) {
    last >= 1 && Beat(delay, last - 1) < delay + MAX_FLUSH_DURATION <= Beat(delay, last)
  }

  lemma MostStraddles(delay: nat)
    requires delay > 0
    ensures Most(delay) >= 1 && Straddles(delay, Most(delay))
    ensures Beat(delay, Most(delay)) == Most(delay) * delay + delay
  {
    hide CeilDiv;
    var c := Most(delay);
    CeilDivMeans(MAX_FLUSH_DURATION, delay, 0);
    CeilDivMeans(MAX_FLUSH_DURATION, delay, c);
    CeilDivMeans(MAX_FLUSH_DURATION, delay, c - 1);
    assert (c + 1) * delay == c * delay + delay && (c - 1) * delay == c * delay - delay;
  }

  lemma ReadingsAscend(delay: nat, last: nat, m: nat, n: nat)
    requires Straddles(delay, last) && m <= n
    ensures delay <= Reading(delay, last, m) <= Reading(delay, last, n)
  {
    hide Beat;
    NextBeat(delay, 0);
    if m < 3 * last {
      BeatsAscend(delay, 0, m / 3);
      BeatsAscend(delay, m / 3, last - 1);
      BeatsAscend(delay, m / 3, if n < 3 * last then n / 3 else last);
    } else {
      BeatsAscend(delay, 0, last);
    }
  }

  lemma MetronomeAscends(delay: nat, last: nat)
    requires Straddles(delay, last)
    ensures Nondecreasing(Metronome(delay, last))
  {
    hide Reading, Straddles;
    forall i: nat, j: nat | i <= j ensures Metronome(delay, last).clock(i) <= Metronome(delay, last).clock(j) {
      if j > 2 { ReadingsAscend(delay, last, if i > 2 then i - 3 else 0, j - 3); }
    }
  }

  function Paced(delay: nat, last: nat): Config { Config(0, last + 1, delay, last + 1, 4, true) }

  function Appends(n: nat): seq<Event> { seq(n, i => Appended("a", 1, 0)) }

  function Ids(n: nat): seq<nat> { seq(n, i => i + 1) }

  /** After n appends: all n are queued and due. */
  ghost predicate Loaded(w: World, s: State, n: nat) {
    && s.ledger.transactions == Ids(n) && s.ledger.counter == s.ledger.totalSize == n
    && (forall id :: id in Ids(n) ==> At(s.trs, id) == NewTr(1, "a", 0))
    && s.cycle == Initial(w).cycle && s.history == Initial(w).history && s.ticks == 1
  }

  lemma {:induction false} AppendsLoad(cfg: Config, w: World, n: nat)
    requires n <= cfg.maxQueueSize
    ensures Loaded(w, Run(cfg, w, Initial(w), Appends(n)), n)
    decreases n
  {
    if n == 0 {
      assert Appends(0) == [] && Ids(0) == [];
    } else {
      AppendsLoad(cfg, w, n - 1);
      assert Appends(n)[..n - 1] == Appends(n - 1);
      var before := Run(cfg, w, Initial(w), Appends(n - 1));
      OneMoreLoaded(cfg, w, before, n - 1);
    }
  }

  lemma OneMoreLoaded(cfg: Config, w: World, s: State, n: nat)
    requires Loaded(w, s, n) && n + 1 <= cfg.maxQueueSize
    ensures Loaded(w, Append(cfg, s, "a", 1, 0), n + 1)
  {
    assert Ids(n + 1) == Ids(n) + [n + 1];
    assert forall id :: id in Ids(n) ==> id <= n;
  }

  /** The flush when `left` transactions are still to be dispatched. */
  ghost predicate OnBeat(delay: nat, last: nat, s: State, left: nat) {
    var k := last + 1 - left;
    && left <= last + 1 && |Queue(s.cycle)| == left && s.cycle.running == k && s.ticks == 3 + 3 * k
    && s.cycle.flushTime == delay && s.cycle.lastFlush + delay == Beat(delay, k)
    && |s.history.log| == k && s.history.first == 0
  }

  lemma BeatReadings(delay: nat, last: nat, k: nat)
    requires Straddles(delay, last) && k <= last
    ensures var w := Metronome(delay, last);
      && w.clock(3 + 3 * k) == (if k < last then Beat(delay, k) else delay + MAX_FLUSH_DURATION - 1)
      && w.clock(4 + 3 * k) == w.clock(5 + 3 * k) == Beat(delay, k)
      && w.clock(3 + 3 * k) < delay + MAX_FLUSH_DURATION
  {
    hide Beat;
    if k < last { BeatsAscend(delay, k, last - 1); }
  }

  /** One turn dispatches on the beat. */
  lemma TurnOnBeat(delay: nat, last: nat, s: State, left: nat)
    requires Straddles(delay, last) && OnBeat(delay, last, s, left) && left > 0
    ensures var w := Metronome(delay, last); var k := last + 1 - left;
      var d := Dispatch(Queue(s.cycle)[left - 1], At(s.trs, Queue(s.cycle)[left - 1]).errors,
                        w.clock(3 + 3 * k), Beat(delay, k), Beat(delay, k));
      var turn := FlushTurn(Paced(delay, last), w, s);
      turn.Again? && OnBeat(delay, last, turn.state, left - 1) && turn.state.history.log == s.history.log + [d]
  {
    hide Beat, Straddles, Metronome, TrError;
    var k := last + 1 - left;
    BeatReadings(delay, last, k);
    NextBeat(delay, k);
    NeverRaises(delay, last, s.sends);
  }

  lemma NeverRaises(delay: nat, last: nat, n: nat)
    ensures !Metronome(delay, last).raises(n)
  {
  }

  lemma {:induction false} FlushOnBeat(delay: nat, last: nat, s: State, left: nat)
    requires Straddles(delay, last) && OnBeat(delay, last, s, left)
    ensures var h := FlushNext(Paced(delay, last), Metronome(delay, last), s).history;
      && |h.log| == last + 1 && h.first == 0
      && (left == 0 ==> h == s.history)
      && (left > 0 ==> Gap(h.log[last]) == Beat(delay, last) - delay - MAX_FLUSH_DURATION + 1)
    decreases left
  {
    hide Beat, Straddles, Metronome;
    if left > 0 {
      TurnOnBeat(delay, last, s, left);
      BeatReadings(delay, last, last);
      FlushOnBeat(delay, last, FlushTurn(Paced(delay, last), Metronome(delay, last), s).state, left - 1);
    }
  }

  lemma StartsOnBeat(delay: nat, last: nat, s: State)
    requires Straddles(delay, last) && Loaded(Metronome(delay, last), s, last + 1)
    ensures var w := Metronome(delay, last);
      && Due(s.trs, s.ledger.transactions, Now(w, s)) == Ids(last + 1)
      && OnBeat(delay, last, StartCycle(w, Tick(s), Ids(last + 1)), last + 1)
  {
    hide Straddles, Reading, FlushOrder;
    AllDue(s.trs, Ids(last + 1), delay);
    NextBeat(delay, 0);
    OrderKeepsLength(s.trs, Ids(last + 1));
  }

  lemma OrderKeepsLength(trs: map<nat, Tr>, ids: seq<nat>)
    ensures |FlushOrder(trs, ids)| == |ids|
  {
  }

  /** For every delay, a run whose last flush dispatches one transaction more than
      ceil(duration / delay), at the smallest gap that allows it. */
  lemma OneMore(delay: nat) returns (cfg: Config, w: World, s: State)
    requires delay > 0
    ensures Nondecreasing(w) && cfg.throttlingDelay == delay && Reachable(cfg, w, s)
    ensures DispatchCount(s.history) == Most(delay) + 1 && |s.history.log| == Most(delay) + 1
    ensures Gap(s.history.log[Most(delay)]) == Most(delay) * delay - MAX_FLUSH_DURATION + 1
  {
    hide Run, Straddles, Metronome, Beat, CeilDiv, FlushNext, Due, StartCycle, Gap;
    MostStraddles(delay);
    var last: nat := Most(delay);
    cfg, w := Paced(delay, last), Metronome(delay, last);
    MetronomeAscends(delay, last);
    AppendsLoad(cfg, w, last + 1);
    var loaded := Run(cfg, w, Initial(w), Appends(last + 1));
    StartsOnBeat(delay, last, loaded);
    FlushOnBeat(delay, last, StartCycle(w, Tick(loaded), Ids(last + 1)), last + 1);
    s := Flush(cfg, w, loaded);
    var events := Appends(last + 1) + [Flushed];
    FlushLast(cfg, w, Appends(last + 1));
    assert Run(cfg, w, Initial(w), events) == s;
    assert Ids(last + 1)[0] == 1;
  }

  lemma FlushLast(cfg: Config, w: World, events: seq<Event>)
    ensures Run(cfg, w, Initial(w), events + [Flushed]) == Flush(cfg, w, Run(cfg, w, Initial(w), events))
  {
    hide Flush;
    assert (events + [Flushed])[..|events|] == events;
  }
}
