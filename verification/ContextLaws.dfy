/** Zero-filling, repeated timestamps and conservation for one counter. */
module ContextLaws {
  import opened Prelude
  import opened Buckets
  import opened Metrics
  import opened ContextFlow
  import opened ContextTheorems

  // ---------- one point per completed bucket ----------

  /** The counter has been sampled by the last of these buckets. */
  ghost predicate Live(mine: map<real, SoundCell>, last: Option<real>, bs: seq<real>) {
    last.Some? || exists i :: 0 <= i < |bs| && bs[i] in mine
  }

  function CounterValue(cell: SoundCell): real {
    if cell.metric.CounterMetric? then cell.metric.value else 0.0
  }

  /** What a live counter reports for a completed bucket. */
  function ValueAt(cfg: Config, mine: map<real, SoundCell>, b: real): real {
    if b in mine then CounterValue(mine[b]) / cfg.interval else 0.0
  }

  /** A point for every completed bucket from the first sampled one on: the rate where
      there are samples, zero elsewhere. */
  ghost function Filled(cfg: Config, mine: map<real, SoundCell>, last: Option<real>, bs: seq<real>,
        cutoff: real): seq<Point>
    decreases |bs|
  {
    if bs == [] then []
    else
      var n := |bs| - 1;
      var before := Filled(cfg, mine, last, bs[..n], cutoff);
      if bs[n] < cutoff && Live(mine, last, bs)
      then before + [Point(Plain, bs[n], ValueAt(cfg, mine, bs[n]))]
      else before
  }

  /** The sample time of the latest completed bucket that has one, else the recorded one. */
  function LastSampled(mine: map<real, SoundCell>, last: Option<real>, bs: seq<real>, cutoff: real): Option<real>
    decreases |bs|
  {
    if bs == [] then last
    else
      var n := |bs| - 1;
      if bs[n] < cutoff && bs[n] in mine then mine[bs[n]].sampledAt else LastSampled(mine, last, bs[..n], cutoff)
  }

  ghost predicate NothingExpires(mine: map<real, SoundCell>, last: Option<real>, cutoff: real, expiry: real) {
    && (last.Some? ==> last.value >= expiry)
    && forall b :: b in mine && b < cutoff ==> !Expired(mine[b].sampledAt, expiry)
  }

  lemma {:induction false} OnePointPerBucket(cfg: Config, mine: map<real, SoundCell>, last: Option<real>,
        bs: seq<real>, cutoff: real, expiry: real)
    requires StrictlyAscending(bs) && CounterCells(mine) && NothingExpires(mine, last, cutoff, expiry)
    ensures var r := CloseBuckets(cfg, mine, last, bs, cutoff, expiry);
      && r.points == Filled(cfg, mine, last, bs, cutoff)
      && r.last == LastSampled(mine, last, bs, cutoff)
      && (r.last.Some? ==> r.last.value >= expiry)
      && (bs != [] && bs[|bs| - 1] < cutoff ==> (r.last.Some? <==> Live(mine, last, bs)))
      && (bs == [] ==> r.last == last)
    decreases |bs|
  {
    if bs != [] {
      var n := |bs| - 1;
      OnePointPerBucket(cfg, mine, last, bs[..n], cutoff, expiry);
      var before := CloseBuckets(cfg, mine, last, bs[..n], cutoff, expiry);
      if bs[n] < cutoff {
        assert n > 0 ==> bs[n - 1] < cutoff;
        assert before.last.Some? <==> Live(mine, last, bs[..n]);
        LiveSnoc(mine, last, bs);
      }
    }
  }

  lemma LiveSnoc(mine: map<real, SoundCell>, last: Option<real>, bs: seq<real>)
    requires bs != []
    ensures Live(mine, last, bs) <==> Live(mine, last, bs[..|bs| - 1]) || bs[|bs| - 1] in mine
  {
    var n := |bs| - 1;
    if i :| 0 <= i < n && bs[i] in mine { assert bs[..n][i] in mine; }
  }

  /** While nothing expires, a flush gives a live counter exactly one point, real or
      zero, for each completed bucket; when there is no bucket at all, exactly one zero
      for the interval before its cutoff if an interval has passed since the last flush. The
      sample time of the latest completed bucket is recorded. */
  lemma FlushFillsBuckets(cfg: Config, v: View, now: real)
    requires CounterCells(v.mine)
    requires NothingExpires(v.mine, v.last, BucketStart(now, cfg.interval), now - cfg.expirySeconds)
    ensures var cutoff, points := BucketStart(now, cfg.interval), FlushEmission(cfg, v, now).points;
      points == if v.buckets != {} then Filled(cfg, v.mine, v.last, Sorted(v.buckets), cutoff)
                else if v.last.Some? && v.cutoff + cfg.interval <= cutoff then [Zero(cutoff - cfg.interval)]
                else []
    ensures FlushEmission(cfg, v, now).last ==
            if v.buckets != {} then LastSampled(v.mine, v.last, Sorted(v.buckets), BucketStart(now, cfg.interval)) else v.last
  {
    hide BucketStart, Filled, CloseBuckets, LastSampled;
    OnePointPerBucket(cfg, v.mine, v.last, Sorted(v.buckets), BucketStart(now, cfg.interval), now - cfg.expirySeconds);
  }

  // ---------- repeated timestamps ----------

  /** A live counter fills exactly the completed buckets, in order. */
  lemma {:induction false} FilledStamps(cfg: Config, mine: map<real, SoundCell>, last: Option<real>, bs: seq<real>, cutoff: real)
    requires StrictlyAscending(bs) && last.Some?
    ensures var ps := Filled(cfg, mine, last, bs, cutoff);
      && Increasing(ps)
      && (forall p :: p in ps ==> p.timestamp in bs && p.timestamp < cutoff)
      && (forall b :: b in bs && b < cutoff ==> Point(Plain, b, ValueAt(cfg, mine, b)) in ps)
    decreases |bs|
  {
    if bs != [] {
      var n := |bs| - 1;
      assert bs == bs[..n] + [bs[n]];
      FilledStamps(cfg, mine, last, bs[..n], cutoff);
      var before := Filled(cfg, mine, last, bs[..n], cutoff);
      assert forall b :: b in bs[..n] ==> b < bs[n];
      assert forall i :: 0 <= i < |before| ==> before[i] in before;
      assert Live(mine, last, bs);
      hide Live;
    }
  }

  lemma JoinIncreasingIff(a: seq<Point>, b: seq<Point>)
    requires Increasing(a) && Increasing(b) && a != []
    ensures Increasing(a + b) <==> forall p :: p in b ==> a[|a| - 1].timestamp < p.timestamp
  {
    var n := |a| - 1;
    if Increasing(a + b) {
      forall p | p in b ensures a[n].timestamp < p.timestamp {
        var j :| 0 <= j < |b| && b[j] == p;
        assert (a + b)[n] == a[n] && (a + b)[|a| + j] == p;
      }
    } else {
      var i, j :| 0 <= i < j < |a + b| && (a + b)[i].timestamp >= (a + b)[j].timestamp;
      assert i < |a| <= j;
      assert b[j - |a|] in b && a[i].timestamp <= a[n].timestamp;
    }
  }

  /** Exactly when a flush lets a live counter repeat a timestamp or go back: when a bucket
      is open, whoever opened it, that is not later than the counter's last point. The
      counter then reports that bucket, a zero included. */
  lemma RepeatsIff(cfg: Config, v: View, points: seq<Point>, now: real)
    requires v.last.Some? && CounterCells(v.mine) && v.buckets != {} && points != [] && Increasing(points)
    requires NothingExpires(v.mine, v.last, BucketStart(now, cfg.interval), now - cfg.expirySeconds)
    ensures var cutoff, emitted := BucketStart(now, cfg.interval), FlushEmission(cfg, v, now).points;
      && (Increasing(points + emitted) <==>
          forall b :: b in v.buckets && b < cutoff ==> points[|points| - 1].timestamp < b)
      && (forall b :: b in v.buckets && b < cutoff ==> Point(Plain, b, ValueAt(cfg, v.mine, b)) in emitted)
  {
    hide BucketStart, Filled, FlushEmission, Increasing, NothingExpires, CounterCells, ValueAt;
    var bs, cutoff := Sorted(v.buckets), BucketStart(now, cfg.interval);
    FlushFillsBuckets(cfg, v, now);
    FilledStamps(cfg, v.mine, v.last, bs, cutoff);
    var ps := Filled(cfg, v.mine, v.last, bs, cutoff);
    JoinIncreasingIff(points, ps);
    forall b | b in v.buckets && b < cutoff ensures Point(Plain, b, ValueAt(cfg, v.mine, b)) in ps {
      assert b in bs;
    }
  }

  // ---------- conservation ----------

  ghost function Held(mine: map<real, SoundCell>): real
    decreases |mine|
  {
    if mine == map[] then 0.0
    else
      assert (forall c: real :: c !in mine) ==> mine == map[];
      var b :| b in mine;
      CounterValue(mine[b]) + Held(mine - {b})
  }

  lemma {:induction false} HeldRemove(mine: map<real, SoundCell>, b: real)
    requires b in mine
    ensures Held(mine) == CounterValue(mine[b]) + Held(mine - {b})
    decreases |mine|
  {
    var c :| c in mine && Held(mine) == CounterValue(mine[c]) + Held(mine - {c});
    if c != b {
      HeldRemove(mine - {c}, b);
      assert mine - {c} - {b} == mine - {b} - {c};
      HeldRemove(mine - {b}, c);
    }
  }

  lemma HeldUpdate(mine: map<real, SoundCell>, b: real, cell: SoundCell)
    ensures Held(mine[b := cell]) == Held(mine) + CounterValue(cell) - if b in mine then CounterValue(mine[b]) else 0.0
  {
    HeldRemove(mine[b := cell], b);
    if b in mine {
      HeldRemove(mine, b);
      assert mine[b := cell] - {b} == mine - {b};
    } else {
      assert mine[b := cell] - {b} == mine;
    }
  }

  /** What the points of a counter stand for: rate times interval. */
  function FlushedSum(cfg: Config, points: seq<Point>): real
    decreases |points|
  {
    if points == [] then 0.0
    else FlushedSum(cfg, points[..|points| - 1]) + points[|points| - 1].value * cfg.interval
  }

  lemma {:induction false} FlushedSumJoin(cfg: Config, a: seq<Point>, b: seq<Point>)
    ensures FlushedSum(cfg, a + b) == FlushedSum(cfg, a) + FlushedSum(cfg, b)
    decreases |b|
  {
    if b == [] {
      assert a + b == a;
    } else {
      FlushedSumJoin(cfg, a, b[..|b| - 1]);
      assert (a + b)[..|a + b| - 1] == a + b[..|b| - 1];
    }
  }

  /** Counter values in expired metrics of completed buckets. */
  ghost function ExpiredIn(mine: map<real, SoundCell>, bs: seq<real>, cutoff: real, expiry: real): real
    decreases |bs|
  {
    if bs == [] then 0.0
    else
      var n := |bs| - 1;
      ExpiredIn(mine, bs[..n], cutoff, expiry) +
      if bs[n] < cutoff && bs[n] in mine && Expired(mine[bs[n]].sampledAt, expiry) then CounterValue(mine[bs[n]]) else 0.0
  }

  ghost function CompletedIn(bs: seq<real>, cutoff: real): set<real> { set b | b in bs && b < cutoff }

  lemma CloseConserves(cfg: Config, cell: Option<SoundCell>, last: Option<real>, b: real, expiry: real)
    requires cell.Some? ==> cell.value.metric.CounterMetric?
    ensures FlushedSum(cfg, CloseBucket(cfg, cell, last, b, expiry).points) ==
            if cell.Some? && !Expired(cell.value.sampledAt, expiry) then CounterValue(cell.value) else 0.0
  {
    var ps := CloseBucket(cfg, cell, last, b, expiry).points;
    if ps != [] {
      assert ps[..|ps| - 1] == [];
      if cell.Some? { TimesQuotient(cell.value.metric.value, cfg.interval); }
    }
  }

  /** Completing one bucket more takes its metric out. */
  lemma CompleteOne(mine: map<real, SoundCell>, bs: seq<real>, cutoff: real)
    requires StrictlyAscending(bs) && bs != []
    ensures var n := |bs| - 1; var left := mine - CompletedIn(bs[..n], cutoff);
      && mine - CompletedIn(bs, cutoff) == (if bs[n] < cutoff then left - {bs[n]} else left)
      && (bs[n] in mine ==> bs[n] in left && left[bs[n]] == mine[bs[n]])
      && (bs[n] !in mine ==> left - {bs[n]} == left)
  {
    var n := |bs| - 1;
    assert bs == bs[..n] + [bs[n]] && bs[n] !in bs[..n];
    assert CompletedIn(bs, cutoff) == CompletedIn(bs[..n], cutoff) + if bs[n] < cutoff then {bs[n]} else {};
  }

  lemma {:induction false} CloseAllConserves(cfg: Config, mine: map<real, SoundCell>, last: Option<real>,
        bs: seq<real>, cutoff: real, expiry: real)
    requires StrictlyAscending(bs) && CounterCells(mine)
    ensures FlushedSum(cfg, CloseBuckets(cfg, mine, last, bs, cutoff, expiry).points) + ExpiredIn(mine, bs, cutoff, expiry)
            == Held(mine) - Held(mine - CompletedIn(bs, cutoff))
    decreases |bs|
  {
    if bs == [] {
      assert mine - CompletedIn(bs, cutoff) == mine;
    } else {
      var n := |bs| - 1;
      CloseAllConserves(cfg, mine, last, bs[..n], cutoff, expiry);
      CompleteOne(mine, bs, cutoff);
      hide Held, FlushedSum, CloseBucket, CompletedIn, Expired;
      if bs[n] < cutoff {
        var before := CloseBuckets(cfg, mine, last, bs[..n], cutoff, expiry);
        CloseConserves(cfg, Lookup(mine, bs[n]), before.last, bs[n], expiry);
        FlushedSumJoin(cfg, before.points, CloseBucket(cfg, Lookup(mine, bs[n]), before.last, bs[n], expiry).points);
        if bs[n] in mine { HeldRemove(mine - CompletedIn(bs[..n], cutoff), bs[n]); }
      }
    }
  }

  /** Counter values a flush throws away with expired metrics. */
  ghost function ExpiredBy(cfg: Config, v: View, now: real): real {
    ExpiredIn(v.mine, Sorted(v.buckets), BucketStart(now, cfg.interval), now - cfg.expirySeconds)
  }

  lemma ZeroSums(cfg: Config, points: seq<Point>)
    requires |points| <= 1 && forall p :: p in points ==> p.value == 0.0
    ensures FlushedSum(cfg, points) == 0.0
  {
    if points != [] {
      assert points[0] in points && points[..0] == [];
      assert 0.0 * cfg.interval == 0.0;
    }
  }

  lemma EmptyFlush(cfg: Config, v: View, now: real)
    requires v.buckets == {}
    ensures |FlushEmission(cfg, v, now).points| <= 1
    ensures forall p :: p in FlushEmission(cfg, v, now).points ==> p.value == 0.0
    ensures Sorted(v.buckets) == []
  {
    hide BucketStart, CloseBuckets, Sorted;
    ListsUnique(Sorted(v.buckets), [], {});
  }

  lemma NothingHeld()
    ensures Held(map[]) == 0.0
  {
  }

  lemma Completed(v: View, bs: seq<real>, cutoff: real)
    requires Lists(bs, v.buckets) && v.mine.Keys <= v.buckets
    ensures v.mine - CompletedIn(bs, cutoff) == RemainingCells(v.mine, cutoff)
  {
  }

  lemma FlushConserves(cfg: Config, v: View, now: real)
    requires CounterCells(v.mine) && v.mine.Keys <= v.buckets
    ensures FlushedSum(cfg, FlushEmission(cfg, v, now).points) + ExpiredBy(cfg, v, now) + Held(Flush(cfg, v, now).mine) == Held(v.mine)
  {
    hide CloseBuckets, BucketStart, Sorted, Lists, FlushedSum, Held, CounterCells, CompletedIn, RemainingCells, CreateEmpty, Remaining;
    var bs, cutoff := Sorted(v.buckets), BucketStart(now, cfg.interval);
    if v.buckets == {} {
      EmptyFlush(cfg, v, now);
      ZeroSums(cfg, FlushEmission(cfg, v, now).points);
      NothingHeld();
      NothingRemains(v, cutoff);
    } else {
      ListsStrictly(bs, v.buckets);
      CloseAllConserves(cfg, v.mine, v.last, bs, cutoff, now - cfg.expirySeconds);
      Completed(v, bs, cutoff);
    }
  }

  lemma NothingRemains(v: View, cutoff: real)
    requires v.mine.Keys <= v.buckets == {}
    ensures v.mine == map[] && RemainingCells(v.mine, cutoff) == map[]
  {
  }

  lemma ListsStrictly(bs: seq<real>, buckets: set<real>)
    requires Lists(bs, buckets)
    ensures StrictlyAscending(bs)
  {
  }

  function Contribution(cfg: Config, p: Submission): real {
    if TooOld(cfg, p.timestamp, p.now) || p.rate == 0.0 then 0.0 else p.value * Weight(p.rate) as real
  }

  /** The sum of value times int(1 / rate) over accepted points. */
  function AcceptedSum(cfg: Config, events: seq<Event>): real
    decreases |events|
  {
    if events == [] then 0.0
    else
      var n := |events| - 1;
      AcceptedSum(cfg, events[..n]) + if events[n].Mine? then Contribution(cfg, events[n].point) else 0.0
  }

  /** Counter values thrown away with expired metrics over a run. */
  ghost function ExpiredSum(cfg: Config, events: seq<Event>): real
    decreases |events|
  {
    if events == [] then 0.0
    else
      var n := |events| - 1;
      ExpiredSum(cfg, events[..n]) +
      if events[n].Flushed? then ExpiredBy(cfg, Run(cfg, events[..n]).view, events[n].now) else 0.0
  }

  lemma SubmitConserves(cfg: Config, v: View, p: Submission)
    requires CounterCells(v.mine) && v.mine.Keys <= v.buckets && p.mtype.CounterType?
    ensures var r := SubmitMine(cfg, v, p);
      CounterCells(r.mine) && r.mine.Keys <= r.buckets && Held(r.mine) == Held(v.mine) + Contribution(cfg, p)
  {
    if !TooOld(cfg, p.timestamp, p.now) {
      var b := BucketOf(cfg, p.timestamp, p.now);
      SampleKeepsCounter(Lookup(v.mine, b), p);
      HeldUpdate(v.mine, b, SampleInto(Lookup(v.mine, b), p).value);
      hide Held;
    }
  }

  /** Counter conservation over every run, whatever the interleaving, the timestamps and
      the rates: flushed + held + expired = accepted. */
  lemma {:induction false} CounterConservation(cfg: Config, events: seq<Event>)
    requires AllCounters(events)
    ensures var r := Run(cfg, events);
      && FlushedSum(cfg, r.points) + Held(r.view.mine) + ExpiredSum(cfg, events) == AcceptedSum(cfg, events)
      && CounterCells(r.view.mine) && r.view.mine.Keys <= r.view.buckets
    decreases |events|
  {
    if events != [] {
      var n := |events| - 1;
      assert forall i :: 0 <= i < n ==> events[..n][i] == events[i];
      CounterConservation(cfg, events[..n]);
      var before := Run(cfg, events[..n]);
      assert events[n].Mine? ==> events[n].point.mtype.CounterType?;
      hide Held, FlushEmission, SubmitMine;
      match events[n]
      case Mine(p) => SubmitConserves(cfg, before.view, p);
      case Other(_, _) =>
      case Flushed(now) =>
        FlushConserves(cfg, before.view, now);
        FlushedSumJoin(cfg, before.points, FlushEmission(cfg, before.view, now).points);
    }
  }
}
