/** MonotonicCount: increments of a counter, however flushes fall between its samples. */
module MonotonicCounts {
  import opened Prelude

  class MonotonicCount {
    var prevCounter: Option<int>
    var currCounter: Option<int>
    var count: Option<int>

    constructor ()
      ensures State() == MonotonicState(None, None, None)
    {
      prevCounter, currCounter, count := None, None, None;
    }

    ghost function State(): MonotonicState
      reads this
    {
      MonotonicState(prevCounter, currCounter, count)
    }

    method Sample(value: int)
      modifies this
      ensures State() == AfterSample(old(State()), value)
    {
      if currCounter.None? {
        currCounter := Some(value);
      } else {
        prevCounter := currCounter;
        currCounter := Some(value);
      }
      if prevCounter.Some? && currCounter.Some? {
        var sofar := if count.Some? then count.value else 0;
        var increment := currCounter.value - prevCounter.value;
        count := Some(sofar + if increment > 0 then increment else 0);
      }
    }

    /** What is reported, if anything. */
    method Flush() returns (reported: Option<int>)
      modifies this
      ensures (State(), reported) == AfterFlush(old(State()))
    {
      reported := count;
      if count.Some? {
        prevCounter := currCounter;
        currCounter := None;
        count := None;
      }
    }
  }

  datatype MonotonicState = MonotonicState(prev: Option<int>, curr: Option<int>, count: Option<int>)

  function Increment(from: int, to: int): nat { if to > from then to - from else 0 }

  function Pending(s: MonotonicState): int { if s.count.Some? then s.count.value else 0 }

  function AfterSample(s: MonotonicState, value: int): MonotonicState {
    var t := if s.curr.None? then s.(curr := Some(value)) else s.(prev := s.curr, curr := Some(value));
    if t.prev.Some? then t.(count := Some(Pending(s) + Increment(t.prev.value, value))) else t
  }

  function AfterFlush(s: MonotonicState): (MonotonicState, Option<int>) {
    if s.count.None? then (s, None) else (MonotonicState(s.curr, None, None), s.count)
  }

  datatype Event = Sampled(value: int) | Flushed

  /** The state after a run, and the sum of everything it flushed. */
  function RunOf(events: seq<Event>): (MonotonicState, int)
    decreases |events|
  {
    if events == [] then (MonotonicState(None, None, None), 0)
    else
      var n := |events| - 1;
      var (s, total) := RunOf(events[..n]);
      match events[n]
      case Sampled(v) => (AfterSample(s, v), total)
      case Flushed =>
        var (s', reported) := AfterFlush(s);
        (s', total + if reported.Some? then reported.value else 0)
  }

  function SamplesOf(events: seq<Event>): seq<int>
    decreases |events|
  {
    if events == [] then []
    else
      var n := |events| - 1;
      if events[n].Sampled? then SamplesOf(events[..n]) + [events[n].value] else SamplesOf(events[..n])
  }

  function Max(a: int, b: int): int { if a >= b then a else b }

  /** The sum of max(0, next - previous) over consecutive samples. */
  function SumOfIncrements(samples: seq<int>): int
    decreases |samples|
  {
    if |samples| < 2 then 0
    else
      var n := |samples| - 1;
      SumOfIncrements(samples[..n]) + Max(0, samples[n] - samples[n - 1])
  }

  /** What the state remembers of the samples: the last one, in one of two places. */
  ghost predicate Remembers(s: MonotonicState, samples: seq<int>) {
    && (samples == [] <==> s.prev.None? && s.curr.None?)
    && (samples != [] ==> samples[|samples| - 1] == if s.curr.Some? then s.curr.value else s.prev.value)
    && (s.prev.None? ==> |samples| <= 1)
    && (s.count.Some? <==> s.prev.Some? && s.curr.Some?)
  }

  /** Flush placement does not matter: what was flushed plus what is pending is always the
      sum of the increments between consecutive samples of the whole run. */
  lemma {:induction false} FlushPlacementIsIrrelevant(events: seq<Event>)
    ensures var (s, total) := RunOf(events);
      total + Pending(s) == SumOfIncrements(SamplesOf(events)) && Remembers(s, SamplesOf(events))
    decreases |events|
  {
    hide AfterSample, AfterFlush, Remembers, Pending, SumOfIncrements;
    if events == [] {
      NothingSampled();
    } else {
      var n := |events| - 1;
      FlushPlacementIsIrrelevant(events[..n]);
      var r, samples := RunOf(events[..n]), SamplesOf(events[..n]);
      match events[n]
      case Sampled(value) => SampleCounts(r.0, samples, value);
      case Flushed => FlushCounts(r.0, samples);
    }
  }

  lemma NothingSampled()
    ensures var s := MonotonicState(None, None, None);
      Pending(s) == SumOfIncrements([]) && Remembers(s, [])
  {
  }

  /** A sample adds its increment to what is pending. */
  lemma SampleCounts(s: MonotonicState, samples: seq<int>, value: int)
    requires Remembers(s, samples)
    ensures Remembers(AfterSample(s, value), samples + [value])
    ensures Pending(AfterSample(s, value)) - Pending(s) == SumOfIncrements(samples + [value]) - SumOfIncrements(samples)
  {
    assert (samples + [value])[..|samples|] == samples;
  }

  /** A flush reports all that is pending, when two samples have been seen and one of them
      since the last report, and leaves nothing pending; the last sample stays known. */
  lemma FlushCounts(s: MonotonicState, samples: seq<int>)
    requires Remembers(s, samples)
    ensures Remembers(AfterFlush(s).0, samples) && Pending(AfterFlush(s).0) == 0
    ensures AfterFlush(s).1 == if s.prev.Some? && s.curr.Some? then Some(Pending(s)) else None
    ensures AfterFlush(s).1.None? ==> Pending(s) == 0
  {
  }

  lemma {:induction false} IncrementsTelescope(samples: seq<int>)
    requires samples != [] && forall i, j :: 0 <= i < j < |samples| ==> samples[i] <= samples[j]
    ensures SumOfIncrements(samples) == samples[|samples| - 1] - samples[0]
    decreases |samples|
  {
    if |samples| >= 2 { IncrementsTelescope(samples[..|samples| - 1]); }
  }

  /** Of a counter that never falls, the run accounts for last minus first. */
  lemma LastMinusFirst(events: seq<Event>)
    requires var samples := SamplesOf(events);
      samples != [] && forall i, j :: 0 <= i < j < |samples| ==> samples[i] <= samples[j]
    ensures var (s, total) := RunOf(events); var samples := SamplesOf(events);
      total + Pending(s) == samples[|samples| - 1] - samples[0]
  {
    FlushPlacementIsIrrelevant(events);
    IncrementsTelescope(SamplesOf(events));
  }
}
