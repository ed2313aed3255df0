/**
 MetricsBucketAggregator as seen by one context (name, tags, host, device): which
 buckets exist, the context's metric in each, and when it was last sampled if it is a
 counter. Submissions for other contexts matter only through the buckets they open.
 */
module ContextFlow {
  import opened Prelude
  import opened Buckets
  import opened Metrics

  datatype ConfigData = ConfigData(interval: real, expirySeconds: real, recentPointThreshold: int, histograms: HistogramConfig)

  type Config = c: ConfigData | c.interval > 0.0 && ValidConfig(c.histograms)
    witness ConfigData(1.0, 300.0, 3600, HistogramConfig([], []))

  /** `last` is the entry in `last_sample_time_by_context`. */
  datatype View = View(buckets: set<real>, mine: map<real, SoundCell>, last: Option<real>, cutoff: real)

  function Initial(): View { View({}, map[], None, 0.0) }

  // ---------- submit_metric ----------

  /** A point with its optional explicit timestamp and the two clock readings taken for it. */
  datatype Submission = Submission(mtype: MetricType, value: real, rate: real, timestamp: Option<real>, now: real, sampledAt: real)

  predicate TooOld(cfg: Config, timestamp: Option<real>, now: real) {
    timestamp.Some? && now - Truncate(timestamp.value) as real > cfg.recentPointThreshold as real
  }

  /** `timestamp or cur_time`: zero counts as absent. */
  function EffectiveTime(timestamp: Option<real>, now: real): real {
    if timestamp.Some? && timestamp.value != 0.0 then timestamp.value else now
  }

  function BucketOf(cfg: Config, timestamp: Option<real>, now: real): real {
    BucketStart(EffectiveTime(timestamp, now), cfg.interval)
  }

  /** Sampling into a bucket: an unknown type raises before a metric exists, a zero rate
      after. */
  function SampleInto(cell: Option<SoundCell>, p: Submission): Option<SoundCell> {
    if cell.None? && p.mtype.UnknownType? then None
    else
      var before := if cell.Some? then cell.value else Fresh(p.mtype);
      var after := Sample(before, p.value, p.rate, p.sampledAt);
      if after.Some? then after else Some(before)
  }

  function Lookup(mine: map<real, SoundCell>, b: real): Option<SoundCell> {
    if b in mine then Some(mine[b]) else None
  }

  function SubmitMine(cfg: Config, v: View, p: Submission): View {
    if TooOld(cfg, p.timestamp, p.now) then v
    else
      var b := BucketOf(cfg, p.timestamp, p.now);
      var cell := SampleInto(Lookup(v.mine, b), p);
      v.(buckets := v.buckets + {b}, mine := if cell.Some? then v.mine[b := cell.value] else v.mine)
  }

  function SubmitOther(cfg: Config, v: View, timestamp: Option<real>, now: real): View {
    if TooOld(cfg, timestamp, now) then v
    else v.(buckets := v.buckets + {BucketOf(cfg, timestamp, now)})
  }

  // ---------- flush ----------

  /** `last_sample_time < expiry_timestamp`; in Python 2, None is less than any number. */
  predicate Expired(sampledAt: Option<real>, expiry: real) {
    sampledAt.None? || sampledAt.value < expiry
  }

  function Zero(b: real): Point { Point(Plain, b, 0.0) }

  datatype Emission = Emission(last: Option<real>, points: seq<Point>)

  /** `create_empty_metrics` for a context that was not sampled. */
  function CreateEmpty(last: Option<real>, expiry: real, ts: real): Emission {
    if last.None? then Emission(None, [])
    else if last.value < expiry then Emission(None, [])
    else Emission(last, [Zero(ts)])
  }

  /** One completed bucket. A metric that is not a counter does not keep the context from
      being counted as not sampled. */
  function CloseBucket(cfg: Config, cell: Option<SoundCell>, last: Option<real>, b: real, expiry: real): Emission {
    if cell.None? then CreateEmpty(last, expiry, b)
    else if Expired(cell.value.sampledAt, expiry) then Emission(None, [])
    else
      var points := FlushPoints(cfg.histograms, cell.value, b, cfg.interval);
      if cell.value.metric.CounterMetric? then Emission(cell.value.sampledAt, points)
      else
        var r := CreateEmpty(last, expiry, b);
        Emission(r.last, points + r.points)
  }

  ghost predicate StrictlyAscending(bs: seq<real>) {
    forall i, j :: 0 <= i < j < |bs| ==> bs[i] < bs[j]
  }

  /** `bs` is `sorted(buckets)`. */
  ghost predicate Lists(bs: seq<real>, buckets: set<real>) {
    StrictlyAscending(bs) && forall b :: b in bs <==> b in buckets
  }

  function CloseBuckets(cfg: Config, mine: map<real, SoundCell>, last: Option<real>, bs: seq<real>, cutoff: real,
        expiry: real): Emission
    decreases |bs|
  {
    if bs == [] then Emission(last, [])
    else
      var n := |bs| - 1;
      var before := CloseBuckets(cfg, mine, last, bs[..n], cutoff, expiry);
      if bs[n] < cutoff then
        var r := CloseBucket(cfg, Lookup(mine, bs[n]), before.last, bs[n], expiry);
        Emission(r.last, before.points + r.points)
      else before
  }

  lemma CloseOneMore(cfg: Config, mine: map<real, SoundCell>, last: Option<real>, bs: seq<real>, b: real,
        cutoff: real, expiry: real)
    ensures var before := CloseBuckets(cfg, mine, last, bs, cutoff, expiry);
      var r := CloseBucket(cfg, Lookup(mine, b), before.last, b, expiry);
      CloseBuckets(cfg, mine, last, bs + [b], cutoff, expiry) ==
      if b < cutoff then Emission(r.last, before.points + r.points) else before
  {
    assert (bs + [b])[..|bs|] == bs;
  }

  lemma {:induction false} ListsExists(buckets: set<real>) returns (bs: seq<real>)
    ensures Lists(bs, buckets)
    decreases |buckets|
  {
    if buckets == {} {
      bs := [];
    } else {
      var m := Greatest(buckets);
      var rest := ListsExists(buckets - {m});
      bs := rest + [m];
      assert forall i :: 0 <= i < |rest| ==> rest[i] in rest;
    }
  }

  lemma SomeListing(buckets: set<real>)
    ensures exists bs :: Lists(bs, buckets)
  {
    var bs := ListsExists(buckets);
  }

  lemma {:induction false} Greatest(s: set<real>) returns (m: real)
    requires s != {}
    ensures m in s && forall x :: x in s ==> x <= m
    decreases |s|
  {
    assert (forall y: real :: y !in s) ==> s == {};
    var x :| x in s;
    var rest := s - {x};
    assert forall z :: z in s ==> z == x || z in rest;
    if rest == {} {
      m := x;
    } else {
      var y := Greatest(rest);
      m := if x >= y then x else y;
    }
  }

  lemma Members(bs: seq<real>)
    ensures bs != [] ==> bs[0] in bs && bs[|bs| - 1] in bs
  {
  }

  lemma {:induction false} ListsUnique(bs: seq<real>, cs: seq<real>, buckets: set<real>)
    requires Lists(bs, buckets) && Lists(cs, buckets)
    ensures bs == cs
    decreases |bs|
  {
    Members(bs);
    Members(cs);
    if bs != [] && cs != [] {
      var n, m := |bs| - 1, |cs| - 1;
      assert bs[n] in cs && cs[m] in bs;
      assert bs == bs[..n] + [bs[n]] && cs == cs[..m] + [cs[m]];
      assert bs[n] == cs[m];
      DropLast(bs, buckets);
      DropLast(cs, buckets);
      ListsUnique(bs[..n], cs[..m], buckets - {bs[n]});
    }
  }

  lemma DropLast(bs: seq<real>, buckets: set<real>)
    requires Lists(bs, buckets) && bs != []
    ensures Lists(bs[..|bs| - 1], buckets - {bs[|bs| - 1]})
  {
    var n := |bs| - 1;
    assert bs == bs[..n] + [bs[n]];
    assert forall i :: 0 <= i < n ==> bs[..n][i] == bs[i];
  }

  ghost function Sorted(buckets: set<real>): (bs: seq<real>)
    ensures Lists(bs, buckets)
  {
    SomeListing(buckets);
    var bs :| Lists(bs, buckets);
    bs
  }

  function Remaining(buckets: set<real>, cutoff: real): set<real> { set b | b in buckets && b >= cutoff }

  function RemainingCells(mine: map<real, SoundCell>, cutoff: real): map<real, SoundCell> {
    map b | b in mine && b >= cutoff :: mine[b]
  }

  /** What a flush at `now` does to the context's last sample time, and what it emits. */
  ghost function FlushEmission(cfg: Config, v: View, now: real): Emission {
    var cutoff, expiry := BucketStart(now, cfg.interval), now - cfg.expirySeconds;
    if v.buckets != {} then CloseBuckets(cfg, v.mine, v.last, Sorted(v.buckets), cutoff, expiry)
    else if cutoff >= v.cutoff + cfg.interval then CreateEmpty(v.last, expiry, cutoff - cfg.interval)
    else Emission(v.last, [])
  }

  ghost function Flush(cfg: Config, v: View, now: real): View {
    var cutoff := BucketStart(now, cfg.interval);
    View(Remaining(v.buckets, cutoff), RemainingCells(v.mine, cutoff), FlushEmission(cfg, v, now).last, cutoff)
  }

  // ---------- runs ----------

  datatype Event =
    | Mine(point: Submission)
    | Other(timestamp: Option<real>, now: real)
    | Flushed(now: real)

  datatype Outcome = Outcome(view: View, points: seq<Point>)

  ghost function RunFrom(cfg: Config, v: View, events: seq<Event>): Outcome
    decreases |events|
  {
    if events == [] then Outcome(v, [])
    else
      var n := |events| - 1;
      var r := RunFrom(cfg, v, events[..n]);
      match events[n]
      case Mine(p) => r.(view := SubmitMine(cfg, r.view, p))
      case Other(timestamp, now) => r.(view := SubmitOther(cfg, r.view, timestamp, now))
      case Flushed(now) => Outcome(Flush(cfg, r.view, now), r.points + FlushEmission(cfg, r.view, now).points)
  }

  /** A run of a new aggregator. */
  ghost function Run(cfg: Config, events: seq<Event>): Outcome { RunFrom(cfg, Initial(), events) }
}
