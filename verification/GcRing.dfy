/**
 checks.d/go_expvar.py reads garbage-collection pauses out of a ring of 256 slots: the
 pause of collection k (counted from 1) is in slot (k - 1) mod 256. Each poll reports the
 slots written since the previous one.
 */
module GcRing {

  const SLOTS := 256

  /** `s[lo:hi]` for bounds that are not negative. */
  function Slice<T>(s: seq<T>, lo: nat, hi: nat): seq<T> {
    var end := if hi > |s| then |s| else hi;
    if lo >= end then [] else s[lo..end]
  }

  /** The values one poll reports, given the count of the previous poll. */
  function Reported(hist: seq<int>, last: int, num: int): seq<int> {
    if last == num then []
    else
      var start, end := last % SLOTS, (num + SLOTS - 1) % SLOTS + 1;
      if start < end then Slice(hist, start, end)
      else Slice(hist, start, |hist|) + Slice(hist, 0, end)
  }

  class GoExpvar {
    /** `_last_gc_count`, by URL. */
    var lastGcCount: map<string, int>
    /** What was passed to `self.histogram`, in order, by URL. */
    var histogram: seq<(string, int)>

    constructor ()
      ensures lastGcCount == map[] && histogram == []
    {
      lastGcCount, histogram := map[], [];
    }

    function LastCount(url: string): int
      reads this
    {
      if url in lastGcCount then lastGcCount[url] else 0
    }

    method GetGcCollectionHistogram(url: string, numGc: int, pauseHist: seq<int>)
      modifies this
      ensures lastGcCount == old(lastGcCount)[url := numGc]
      ensures forall u :: LastCount(u) == if u == url then numGc else old(LastCount(u))
      ensures histogram == old(histogram) + Labelled(url, Reported(pauseHist, old(LastCount(url)), numGc))
      ensures forall u ::
        var added := if u == url then Reported(pauseHist, old(LastCount(url)), numGc) else [];
        ValuesFor(histogram, u) == old(ValuesFor(histogram, u)) + added
    {
      hide Slice, ValuesFor, Labelled;
      forall u {
        LabelledValues(histogram, url, Reported(pauseHist, LastCount(url), numGc), u);
      }
      LabelledNone(url);
      var last := LastCount(url);
      if last == numGc {
        // a defaultdict inserts the key on lookup
        lastGcCount := lastGcCount[url := last];
        return;
      }
      var start := last % SLOTS;
      var end := (numGc + SLOTS - 1) % SLOTS + 1;
      var values := [];
      if start < end {
        values := Slice(pauseHist, start, end);
      } else {
        values := Slice(pauseHist, start, |pauseHist|) + Slice(pauseHist, 0, end);
      }
      lastGcCount := lastGcCount[url := numGc];
      Histogram(url, values);
    }

    /** The loop over the values. */
    method Histogram(url: string, values: seq<int>)
      modifies this`histogram
      ensures histogram == old(histogram) + Labelled(url, values)
    {
      for i := 0 to |values|
        invariant histogram == old(histogram) + Labelled(url, values[..i])
      {
        histogram := histogram + [(url, values[i])];
      }
      assert values[..|values|] == values;
    }
  }

  lemma LabelledNone(url: string)
    ensures forall h: seq<(string, int)> :: h + Labelled(url, []) == h
  {
  }

  function Labelled(url: string, values: seq<int>): seq<(string, int)> {
    seq(|values|, i requires 0 <= i < |values| => (url, values[i]))
  }

  /** What one URL has reported. */
  function ValuesFor(histogram: seq<(string, int)>, url: string): seq<int>
    decreases |histogram|
  {
    if histogram == [] then []
    else
      var n := |histogram| - 1;
      ValuesFor(histogram[..n], url) + if histogram[n].0 == url then [histogram[n].1] else []
  }

  /** Reporting for one URL adds the values, in order, to what that URL has reported. */
  lemma {:induction false} LabelledValues(histogram: seq<(string, int)>, url: string, values: seq<int>, u: string)
    ensures ValuesFor(histogram + Labelled(url, values), u) == ValuesFor(histogram, u) + if u == url then values else []
    decreases |values|
  {
    var all := histogram + Labelled(url, values);
    if values == [] {
      assert all == histogram;
    } else {
      var n := |values| - 1;
      LabelledValues(histogram, url, values[..n], u);
      assert all[..|histogram| + n] == histogram + Labelled(url, values[..n]);
      assert values == values[..n] + [values[n]];
    }
  }

  function Slot(k: int): (slot: nat)
    ensures slot < SLOTS
  {
    k % SLOTS
  }

  /** The ring after `num` collections: each slot holds the latest pause written to it. */
  ghost predicate Ring(hist: seq<int>, pause: nat -> int, num: nat) {
    && |hist| == SLOTS
    && forall k: nat {:trigger pause(k)} :: 1 <= k <= num && num - k < SLOTS ==> hist[Slot(k - 1)] == pause(k)
  }

  /** The pauses of collections from + 1 .. to, in order. */
  function Pauses(pause: nat -> int, from: nat, to: nat): seq<int>
    requires from <= to
  {
    seq(to - from, i requires 0 <= i < to - from => pause(from + 1 + i))
  }

  /** How many values a poll reports when the count has changed. */
  function Length(last: int, num: int): nat { (num - last - 1) % SLOTS + 1 }

  lemma Residues(last: int, num: int)
    ensures var start, end, n := last % SLOTS, (num + SLOTS - 1) % SLOTS + 1, Length(last, num);
      n == if start < end then end - start else SLOTS - start + end
  {
    var a, b := last / SLOTS, (num - 1) / SLOTS;
    assert num - last - 1 == SLOTS * (b - a) + ((num - 1) % SLOTS - last % SLOTS);
    assert (num + SLOTS - 1) % SLOTS == (num - 1) % SLOTS;
  }

  lemma ReportedLength(hist: seq<int>, last: int, num: int)
    requires |hist| == SLOTS
    ensures |Reported(hist, last, num)| == if last == num then 0 else Length(last, num)
  {
    Residues(last, num);
  }

  lemma SlotOf(last: int, num: int, i: nat)
    requires i < Length(last, num)
    ensures var start, k := last % SLOTS, num - Length(last, num) + 1 + i;
      (k - 1) % SLOTS == if start + i < SLOTS then start + i else start + i - SLOTS
  {
    var q := (num - last - 1) / SLOTS;
    assert num - Length(last, num) == last + q * SLOTS;
    assert (num - Length(last, num) + i) % SLOTS == (last + i) % SLOTS;
    assert (last + i) % SLOTS == (last % SLOTS + i) % SLOTS;
  }

  /** The i-th value reported, by slot. */
  lemma ReportedAt(hist: seq<int>, last: int, num: int, i: nat)
    requires |hist| == SLOTS && last != num && i < Length(last, num)
    ensures |Reported(hist, last, num)| == Length(last, num)
    ensures Reported(hist, last, num)[i] == hist[Slot(num - Length(last, num) + i)]
  {
    Residues(last, num);
    ReportedLength(hist, last, num);
    SlotOf(last, num, i);
    hide Length;
    var start, end := last % SLOTS, (num + SLOTS - 1) % SLOTS + 1;
    if start >= end {
      assert Slice(hist, start, SLOTS) == hist[start..] && Slice(hist, 0, end) == hist[..end];
    }
  }

  lemma ReportedPause(hist: seq<int>, pause: nat -> int, last: int, num: nat, n: nat, i: nat)
    requires Ring(hist, pause, num) && last != num && n == Length(last, num) && i < n <= num
    ensures i < |Reported(hist, last, num)| && Reported(hist, last, num)[i] == pause(num - n + 1 + i)
  {
    hide Ring, Reported, Length, Slot;
    LengthBounds(last, num);
    RingAt(hist, pause, num, num - n + i);
    ReportedAt(hist, last, num, i);
  }

  lemma RingSize(hist: seq<int>, pause: nat -> int, num: nat)
    requires Ring(hist, pause, num)
    ensures |hist| == SLOTS
  {
  }

  lemma ArePauses(r: seq<int>, pause: nat -> int, from: nat, to: nat)
    requires from <= to && |r| == to - from
    requires forall i :: 0 <= i < |r| ==> r[i] == pause(from + 1 + i)
    ensures r == Pauses(pause, from, to)
  {
  }

  /** Whatever the two counts, a poll reports the most recent pauses, in order. */
  lemma ReportsLatest(hist: seq<int>, pause: nat -> int, last: int, num: nat)
    requires Ring(hist, pause, num) && last != num && Length(last, num) <= num
    ensures Reported(hist, last, num) == Pauses(pause, num - Length(last, num), num)
  {
    hide Reported, Length, Ring, Slot, Pauses;
    RingSize(hist, pause, num);
    var n := Length(last, num);
    var r := Reported(hist, last, num);
    LengthBounds(last, num);
    ReportedAt(hist, last, num, 0);
    forall i | 0 <= i < n ensures r[i] == pause(num - n + 1 + i) {
      ReportedPause(hist, pause, last, num, n, i);
    }
    ArePauses(r, pause, num - n, num);
  }

  lemma LengthBounds(last: int, num: int)
    ensures 1 <= Length(last, num) <= SLOTS
  {
  }

  lemma RingAt(hist: seq<int>, pause: nat -> int, num: nat, j: nat)
    requires Ring(hist, pause, num) && j < num <= j + SLOTS
    ensures |hist| == SLOTS && hist[Slot(j)] == pause(j + 1)
  {
    assert hist[Slot(j + 1 - 1)] == pause(j + 1);
  }

  /** A poll reports exactly the pauses since the previous poll precisely when at most a
      ringful of collections ran in between. */
  lemma ReportsNewPausesIff(hist: seq<int>, pause: nat -> int, last: nat, num: nat)
    requires Ring(hist, pause, num)
    ensures last <= num && Reported(hist, last, num) == Pauses(pause, last, num) <==> 0 <= num - last <= SLOTS
  {
    assert last == num ==> Reported(hist, last, num) == [] == Pauses(pause, last, num);
    assert |hist| == SLOTS && (last < num ==> |Pauses(pause, last, num)| == num - last);
    hide Reported, Ring, Length, Pauses;
    ReportedLength(hist, last, num);
    if last < num {
      GapLength(last, num);
      if num <= last + SLOTS { ReportsLatest(hist, pause, last, num); }
    }
  }

  /** Consecutive polls of one URL: everything reported, oldest first. */
  function ReportedOver(polls: seq<(nat, seq<int>)>): seq<int>
    decreases |polls|
  {
    if polls == [] then []
    else
      var n := |polls| - 1;
      ReportedOver(polls[..n]) + Reported(polls[n].1, LastOf(polls[..n]), polls[n].0)
  }

  function LastOf(polls: seq<(nat, seq<int>)>): nat {
    if polls == [] then 0 else polls[|polls| - 1].0
  }

  /** Every poll sees the ring of one process whose count never falls. */
  ghost predicate Faithful(polls: seq<(nat, seq<int>)>, pause: nat -> int) {
    && (forall i :: 0 <= i < |polls| ==> Ring(polls[i].1, pause, polls[i].0))
    && (forall i :: 0 <= i < |polls| ==> LastOf(polls[..i]) <= polls[i].0)
  }

  ghost predicate OftenEnough(polls: seq<(nat, seq<int>)>) {
    forall i :: 0 <= i < |polls| ==> polls[i].0 - LastOf(polls[..i]) <= SLOTS
  }

  /** Over any sequence of polls, every pause is reported exactly once and in order if and
      only if no two consecutive polls are more than a ringful of collections apart. */
  lemma {:induction false} EveryPauseOnceIff(polls: seq<(nat, seq<int>)>, pause: nat -> int)
    requires Faithful(polls, pause)
    ensures ReportedOver(polls) == Pauses(pause, 0, LastOf(polls)) <==> OftenEnough(polls)
    ensures |ReportedOver(polls)| <= LastOf(polls)
    decreases |polls|
  {
    if polls != [] {
      var n := |polls| - 1;
      var before, last, num, hist := polls[..n], LastOf(polls[..n]), polls[n].0, polls[n].1;
      assert forall i :: 0 <= i < n ==> before[i] == polls[i] && before[..i] == polls[..i];
      hide Ring, Reported, Length, OftenEnough, Pauses;
      EveryPauseOnceIff(before, pause);
      ReportsNewPausesIff(hist, pause, last, num);
      AtMostNew(hist, pause, last, num);
      JoinPauses(pause, ReportedOver(before), Reported(hist, last, num), last, num);
      OneMorePoll(polls);
    }
  }

  lemma OneMorePoll(polls: seq<(nat, seq<int>)>)
    requires polls != []
    ensures var n := |polls| - 1;
      OftenEnough(polls) <==> OftenEnough(polls[..n]) && polls[n].0 - LastOf(polls[..n]) <= SLOTS
  {
    var n := |polls| - 1;
    assert forall i :: 0 <= i < n ==> polls[..n][i] == polls[i] && polls[..n][..i] == polls[..i];
  }

  /** Two stretches make up the whole exactly when each is right, neither being too long. */
  lemma JoinPauses(pause: nat -> int, a: seq<int>, b: seq<int>, last: nat, num: nat)
    requires last <= num && |a| <= last && |b| <= num - last
    ensures a + b == Pauses(pause, 0, num) <==> a == Pauses(pause, 0, last) && b == Pauses(pause, last, num)
  {
    assert Pauses(pause, 0, num) == Pauses(pause, 0, last) + Pauses(pause, last, num);
    if a + b == Pauses(pause, 0, num) {
      assert |a| == last && |b| == num - last;
      assert a == (a + b)[..last] && b == (a + b)[last..];
    }
  }

  lemma AtMostNew(hist: seq<int>, pause: nat -> int, last: nat, num: nat)
    requires Ring(hist, pause, num) && last <= num
    ensures |Reported(hist, last, num)| <= num - last
  {
    ReportedLength(hist, last, num);
    if last < num { GapLength(last, num); }
  }

  lemma GapLength(last: nat, num: nat)
    requires last < num
    ensures Length(last, num) <= num - last
    ensures Length(last, num) == num - last <==> num - last <= SLOTS
  {
  }
}
