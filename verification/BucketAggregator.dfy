/**
 MetricsBucketAggregator with its two-level dictionary and the one-entry cache that
 aliases an inner dictionary. Every method acts on all contexts at once exactly as
 `ContextFlow` says it acts on each.
 */
module BucketAggregator {
  import opened Prelude
  import opened Buckets
  import opened Metrics
  import opened ContextFlow
  import opened Text

  datatype Context = Context(name: string, tags: seq<string>, hostname: string, deviceName: Option<string>)

  /** The context of a submission; an empty hostname is kept, a missing one is the default. */
  function ContextOf(default: string, name: string, tags: Option<seq<string>>, hostname: Option<string>,
                     deviceName: Option<string>): Context {
    Context(name, if tags.None? then [] else SortedSet(tags.value),
            if hostname.None? then default else hostname.value, deviceName)
  }

  function TagsGiven(tags: Option<seq<string>>): seq<string> { if tags.None? then [] else tags.value }

  /** Submissions meet in one context exactly when they agree on name, host and device and
      have the same tags, however often and in whatever order; no tags are as good as an
      empty list. */
  lemma SameContextIff(default: string,
        name: string, tags: Option<seq<string>>, hostname: Option<string>, device: Option<string>,
        name': string, tags': Option<seq<string>>, hostname': Option<string>, device': Option<string>)
    ensures ContextOf(default, name, tags, hostname, device) == ContextOf(default, name', tags', hostname', device') <==>
      && name == name' && device == device' && SameMembers(TagsGiven(tags), TagsGiven(tags'))
      && (if hostname.None? then default else hostname.value) == (if hostname'.None? then default else hostname'.value)
  {
    hide SortedSet;
    NoTags();
    SortedSetIff(TagsGiven(tags), TagsGiven(tags'));
  }

  lemma NoTags()
    ensures SortedSet([]) == []
  {
  }

  /** An inner dictionary: shared by the outer dictionary and the cache. */
  class ContextDict {
    var entries: map<Context, SoundCell>

    constructor ()
      ensures entries == map[]
    {
      entries := map[];
    }
  }

  datatype SubmitResult = Accepted | Discarded | KeyError | ZeroDivisionError

  /** How a submission ends, given the context's metric in its bucket. */
  function ResultOf(cfg: Config, cell: Option<SoundCell>, p: Submission): SubmitResult {
    if TooOld(cfg, p.timestamp, p.now) then Discarded
    else if cell.None? && p.mtype.UnknownType? then KeyError
    else if Sample(if cell.Some? then cell.value else Fresh(p.mtype), p.value, p.rate, p.sampledAt).None? then ZeroDivisionError
    else Accepted
  }

  /** Too old is discarded; an unknown type raises unless the context has a metric in that
      bucket already; a zero rate raises for counters and histograms, going by the type of
      the metric that is there. All else is accepted. */
  lemma ResultMeaning(cfg: Config, cell: Option<SoundCell>, p: Submission)
    ensures ResultOf(cfg, cell, p) == Discarded <==> TooOld(cfg, p.timestamp, p.now)
    ensures ResultOf(cfg, cell, p) == KeyError <==>
      !TooOld(cfg, p.timestamp, p.now) && cell.None? && p.mtype.UnknownType?
    ensures ResultOf(cfg, cell, p) == ZeroDivisionError <==>
      && !TooOld(cfg, p.timestamp, p.now) && p.rate == 0.0
      && (if cell.Some? then cell.value.metric.CounterMetric? || cell.value.metric.HistogramMetric?
          else p.mtype.CounterType? || p.mtype.HistogramType?)
  {
    hide TooOld, Weight;
  }

  /** The points emitted for one context, in order. */
  function For(metrics: seq<(Context, Point)>, c: Context): seq<Point>
    decreases |metrics|
  {
    if metrics == [] then []
    else
      var n := |metrics| - 1;
      For(metrics[..n], c) + if metrics[n].0 == c then [metrics[n].1] else []
  }

  function Tag(c: Context, points: seq<Point>): seq<(Context, Point)> {
    seq(|points|, i requires 0 <= i < |points| => (c, points[i]))
  }

  lemma NoPoints()
    ensures forall c :: For([], c) == []
  {
  }

  lemma {:induction false} ForJoin(a: seq<(Context, Point)>, b: seq<(Context, Point)>, c: Context)
    ensures For(a + b, c) == For(a, c) + For(b, c)
    decreases |b|
  {
    if b == [] {
      assert a + b == a;
    } else {
      var n := |b| - 1;
      ForJoin(a, b[..n], c);
      assert (a + b)[..|a| + n] == a + b[..n];
    }
  }

  lemma {:induction false} ForTag(c: Context, points: seq<Point>, d: Context)
    ensures For(Tag(c, points), d) == if c == d then points else []
    decreases |points|
  {
    if points != [] {
      var n := |points| - 1;
      ForTag(c, points[..n], d);
      assert Tag(c, points)[..n] == Tag(c, points[..n]);
      assert points == points[..n] + [points[n]];
    }
  }

  function Entry<K, V>(m: map<K, V>, k: K): Option<V> {
    if k in m then Some(m[k]) else None
  }

  /** `sorted(keys)`. */
  method SortedKeys(keys: set<real>) returns (sorted: seq<real>)
    ensures Lists(sorted, keys)
  {
    sorted := [];
    var rest := keys;
    while rest != {}
      invariant rest <= keys && StrictlyAscending(sorted)
      invariant forall b :: b in sorted <==> b in keys && b !in rest
      invariant forall i, b :: 0 <= i < |sorted| && b in rest ==> sorted[i] < b
      decreases |rest|
    {
      var least := LeastOf(rest);
      sorted := sorted + [least];
      rest := rest - {least};
    }
  }

  method LeastOf(s: set<real>) returns (m: real)
    requires s != {}
    ensures m in s && forall x :: x in s ==> m <= x
  {
    assert (forall y: real :: y !in s) ==> s == {};
    m :| m in s;
    var rest := s - {m};
    while rest != {}
      invariant rest <= s && m in s
      invariant forall x :: x in s && x !in rest ==> m <= x
      decreases |rest|
    {
      assert (forall y: real :: y !in rest) ==> rest == {};
      var x :| x in rest;
      if x < m {
        m := x;
      }
      rest := rest - {x};
    }
  }

  class MetricsBucketAggregator {
    const config: Config
    const hostname: string
    var metricByBucket: map<real, ContextDict>
    var lastSampleTimeByContext: map<Context, real>
    var currentBucket: Option<real>
    var currentMbc: ContextDict
    var lastFlushCutoffTime: real
    var numDiscardedOldPoints: nat
    ghost var repr: set<ContextDict>

    /** Buckets have dictionaries of their own, and the cache is empty or is the
        dictionary of its bucket itself. */
    ghost predicate Valid()
      reads this
    {
      && (forall b :: b in metricByBucket ==> metricByBucket[b] in repr)
      && (forall a, b :: a in metricByBucket && b in metricByBucket && a != b ==> metricByBucket[a] != metricByBucket[b])
      && (currentBucket.Some? ==> currentBucket.value in metricByBucket && currentMbc == metricByBucket[currentBucket.value])
    }

    /** The metrics of one context, by bucket. */
    ghost function MetricsOf(c: Context): map<real, SoundCell>
      reads this`metricByBucket, this`repr, repr
    {
      map b | b in metricByBucket && metricByBucket[b] in repr && c in metricByBucket[b].entries :: metricByBucket[b].entries[c]
    }

    ghost function Seen(c: Context): View
      reads this`metricByBucket, this`repr, this`lastSampleTimeByContext, this`lastFlushCutoffTime, repr
    {
      View(metricByBucket.Keys, MetricsOf(c), Entry(lastSampleTimeByContext, c), lastFlushCutoffTime)
    }

    constructor (config: Config, hostname: string)
      ensures this.config == config && this.hostname == hostname && Valid() && fresh(repr)
      ensures forall c :: Seen(c) == Initial()
    {
      this.config, this.hostname := config, hostname;
      metricByBucket, lastSampleTimeByContext, currentBucket := map[], map[], None;
      currentMbc := new ContextDict();
      lastFlushCutoffTime, numDiscardedOldPoints, repr := 0.0, 0, {};
    }

    /** The dictionary of a bucket, through the cache when it is the current one. */
    method OpenBucket(b: real) returns (dict: ContextDict)
      requires Valid()
      modifies this`metricByBucket, this`currentBucket, this`currentMbc, this`repr
      ensures Valid() && fresh(repr - old(repr)) && dict in repr
      ensures b in metricByBucket && metricByBucket[b] == dict
      ensures currentBucket == Some(b) && currentMbc == dict
      ensures forall c :: Seen(c) == old(Seen(c)).(buckets := old(metricByBucket.Keys) + {b})
    {
      if currentBucket == Some(b) {
        dict := currentMbc;
      } else {
        if b !in metricByBucket {
          var empty := new ContextDict();
          metricByBucket, repr := metricByBucket[b := empty], repr + {empty};
        }
        dict := metricByBucket[b];
        currentBucket := Some(b);
        currentMbc := dict;
      }
      forall c ensures MetricsOf(c) == old(MetricsOf(c)) {}
    }

    /** Store a metric for one context in the dictionary of a bucket. */
    method Store(dict: ContextDict, context: Context, cell: SoundCell, ghost b: real)
      requires Valid() && b in metricByBucket && metricByBucket[b] == dict
      modifies dict
      ensures dict.entries == old(dict.entries)[context := cell]
      ensures forall c :: MetricsOf(c) == if c == context then old(MetricsOf(c))[b := cell] else old(MetricsOf(c))
    {
      dict.entries := dict.entries[context := cell];
      forall c ensures MetricsOf(c) == if c == context then old(MetricsOf(c))[b := cell] else old(MetricsOf(c)) {
        assert forall d :: d in metricByBucket && d != b ==> metricByBucket[d].entries == old(metricByBucket[d].entries);
      }
    }

    method SubmitMetric(name: string, p: Submission, tags: Option<seq<string>>, hostname: Option<string>,
          deviceName: Option<string>)
      returns (result: SubmitResult)
      requires Valid()
      modifies this, repr
      ensures Valid() && fresh(repr - old(repr))
      ensures var context := ContextOf(this.hostname, name, tags, hostname, deviceName);
        && (forall c :: Seen(c) == if c == context then SubmitMine(config, old(Seen(c)), p)
                                   else SubmitOther(config, old(Seen(c)), p.timestamp, p.now))
        && result == ResultOf(config, Lookup(old(Seen(context)).mine, BucketOf(config, p.timestamp, p.now)), p)
      ensures numDiscardedOldPoints == old(numDiscardedOldPoints) + if result.Discarded? then 1 else 0
    {
      hide *;
      var context := ContextOf(this.hostname, name, tags, hostname, deviceName);
      result := SubmitTo(context, p);
    }

    method SubmitTo(context: Context, p: Submission) returns (result: SubmitResult)
      requires Valid()
      modifies this, repr
      ensures Valid() && fresh(repr - old(repr))
      ensures forall c :: Seen(c) == if c == context then SubmitMine(config, old(Seen(c)), p)
                                     else SubmitOther(config, old(Seen(c)), p.timestamp, p.now)
      ensures result == ResultOf(config, Lookup(old(Seen(context)).mine, BucketOf(config, p.timestamp, p.now)), p)
      ensures numDiscardedOldPoints == old(numDiscardedOldPoints) + if result.Discarded? then 1 else 0
    {
      hide BucketOf, Sample, TooOld;
      if TooOld(config, p.timestamp, p.now) {
        numDiscardedOldPoints := numDiscardedOldPoints + 1;
        return Discarded;
      }
      var b := BucketOf(config, p.timestamp, p.now);
      var dict := OpenBucket(b);
      assert Lookup(Seen(context).mine, b) == Entry(dict.entries, context);
      if context !in dict.entries {
        if p.mtype.UnknownType? {
          return KeyError;
        }
        Store(dict, context, Fresh(p.mtype), b);
      }
      var after := Sample(dict.entries[context], p.value, p.rate, p.sampledAt);
      if after.None? {
        return ZeroDivisionError;
      }
      Store(dict, context, after.value, b);
      result := Accepted;
    }

    // ---------- flush ----------

    /** What `create_empty_metrics` does for the contexts of `sampleTimes`. */
    method CreateEmptyMetrics(sampleTimes: map<Context, real>, expiry: real,
          ts: real) returns (metrics: seq<(Context, Point)>)
      modifies this`lastSampleTimeByContext
      ensures forall c :: c !in sampleTimes ==>
        Entry(lastSampleTimeByContext, c) == Entry(old(lastSampleTimeByContext), c) && For(metrics, c) == []
      ensures forall c :: c in sampleTimes ==>
        var r := CreateEmpty(Some(sampleTimes[c]), expiry, ts);
        && For(metrics, c) == r.points
        && Entry(lastSampleTimeByContext, c) == if r.last.None? then None else Entry(old(lastSampleTimeByContext), c)
    {
      hide For;
      NoPoints();
      metrics := [];
      var todo := sampleTimes.Keys;
      while todo != {}
        invariant todo <= sampleTimes.Keys
        invariant forall c :: c !in sampleTimes || c in todo ==>
          Entry(lastSampleTimeByContext, c) == Entry(old(lastSampleTimeByContext), c) && For(metrics, c) == []
        invariant forall c :: c in sampleTimes && c !in todo ==>
          var r := CreateEmpty(Some(sampleTimes[c]), expiry, ts);
          && For(metrics, c) == r.points
          && Entry(lastSampleTimeByContext, c) == if r.last.None? then None else Entry(old(lastSampleTimeByContext), c)
        decreases |todo|
      {
        var context :| context in todo;
        todo := todo - {context};
        if sampleTimes[context] < expiry {
          lastSampleTimeByContext := lastSampleTimeByContext - {context};
        } else {
          metrics := Emit(metrics, context, [Zero(ts)]);
        }
      }
    }

    /** Append one context's points to the output. */
    static method Emit(metrics: seq<(Context, Point)>, context: Context,
          points: seq<Point>) returns (r: seq<(Context, Point)>)
      ensures forall c :: For(r, c) == if c == context then For(metrics, c) + points else For(metrics, c)
    {
      r := metrics + Tag(context, points);
      forall c ensures For(r, c) == if c == context then For(metrics, c) + points else For(metrics, c) {
        ForJoin(metrics, Tag(context, points), c);
        ForTag(context, points, c);
      }
    }

    static method Join(a: seq<(Context, Point)>, b: seq<(Context, Point)>) returns (r: seq<(Context, Point)>)
      ensures forall c :: For(r, c) == For(a, c) + For(b, c)
    {
      r := a + b;
      forall c ensures For(r, c) == For(a, c) + For(b, c) { ForJoin(a, b, c); }
    }

    /** How one context leaves the loop over metrics: its recorded sample time, whether it
        still counts as not sampled in this bucket, and its points. */
    ghost predicate Processed(cell: SoundCell, before: Option<real>, last: Option<real>, notSampled: Option<real>,
                              points: seq<Point>, b: real, expiry: real)
    {
      if Expired(cell.sampledAt, expiry) then last == None && notSampled == None && points == []
      else
        && points == FlushPoints(config.histograms, cell, b, config.interval)
        && last == (if cell.metric.CounterMetric? then cell.sampledAt else before)
        && notSampled == (if cell.metric.CounterMetric? then None else before)
    }

    /** The body of that loop: nothing changes for the other contexts. */
    method FlushMetric(context: Context, cell: SoundCell, b: real, expiry: real, metrics: seq<(Context, Point)>,
          notSampled: map<Context, real>)
      returns (metrics': seq<(Context, Point)>, notSampled': map<Context, real>)
      requires For(metrics, context) == [] && Entry(notSampled, context) == Entry(lastSampleTimeByContext, context)
      modifies this`lastSampleTimeByContext
      ensures forall c :: c != context ==>
        && Entry(lastSampleTimeByContext, c) == Entry(old(lastSampleTimeByContext), c)
        && Entry(notSampled', c) == Entry(notSampled, c) && For(metrics', c) == For(metrics, c)
      ensures Processed(cell, Entry(old(lastSampleTimeByContext), context), Entry(lastSampleTimeByContext, context),
                        Entry(notSampled', context), For(metrics', context), b, expiry)
    {
      hide FlushPoints;
      metrics', notSampled' := metrics, notSampled;
      if Expired(cell.sampledAt, expiry) {
        notSampled' := notSampled - {context};
        lastSampleTimeByContext := lastSampleTimeByContext - {context};
      } else {
        metrics' := Emit(metrics, context, FlushPoints(config.histograms, cell, b, config.interval));
        if cell.metric.CounterMetric? {
          lastSampleTimeByContext := lastSampleTimeByContext[context := cell.sampledAt.value];
          notSampled' := notSampled - {context};
        }
      }
    }

    /** The loop over the metrics of one completed bucket. */
    method FlushMetrics(entries: map<Context, SoundCell>, b: real, expiry: real)
      returns (metrics: seq<(Context, Point)>, notSampled: map<Context, real>)
      modifies this`lastSampleTimeByContext
      ensures forall c :: c !in entries ==>
        var before := Entry(old(lastSampleTimeByContext), c);
        Entry(lastSampleTimeByContext, c) == before && Entry(notSampled, c) == before && For(metrics, c) == []
      ensures forall c :: c in entries ==>
        Processed(entries[c], Entry(old(lastSampleTimeByContext), c), Entry(lastSampleTimeByContext, c),
                  Entry(notSampled, c), For(metrics, c), b, expiry)
    {
      hide Processed;
      metrics, notSampled := [], lastSampleTimeByContext;
      var todo := entries.Keys;
      while todo != {}
        invariant todo <= entries.Keys
        invariant forall c :: c !in entries || c in todo ==>
          var before := Entry(old(lastSampleTimeByContext), c);
          Entry(lastSampleTimeByContext, c) == before && Entry(notSampled, c) == before && For(metrics, c) == []
        invariant forall c :: c in entries && c !in todo ==>
          Processed(entries[c], Entry(old(lastSampleTimeByContext), c), Entry(lastSampleTimeByContext, c),
                    Entry(notSampled, c), For(metrics, c), b, expiry)
        decreases |todo|
      {
        var context :| context in todo;
        todo := todo - {context};
        metrics, notSampled := FlushMetric(context, entries[context], b, expiry, metrics, notSampled);
        hide Entry, For;
      }
    }

    /** One completed bucket, for every context. */
    method FlushBucket(entries: map<Context, SoundCell>, b: real, expiry: real) returns (metrics: seq<(Context, Point)>)
      modifies this`lastSampleTimeByContext
      ensures forall c :: CloseBucket(config, Entry(entries, c), Entry(old(lastSampleTimeByContext), c), b, expiry)
                          == Emission(Entry(lastSampleTimeByContext, c), For(metrics, c))
    {
      var flushed, notSampled := FlushMetrics(entries, b, expiry);
      ghost var between := lastSampleTimeByContext;
      var empty := CreateEmptyMetrics(notSampled, expiry, b);
      metrics := flushed + empty;
      forall c
        ensures CloseBucket(config, Entry(entries, c), Entry(old(lastSampleTimeByContext), c), b, expiry)
             == Emission(Entry(lastSampleTimeByContext, c), For(metrics, c))
      {
        ForJoin(flushed, empty, c);
        hide FlushPoints, For;
        assert c !in entries ==> Entry(between, c) == Entry(old(lastSampleTimeByContext), c);
      }
    }

    /** `flush`: what every context emits and keeps is what `ContextFlow` says. */
    method Flush(now: real) returns (metrics: seq<(Context, Point)>)
      requires Valid()
      modifies this
      ensures Valid() && repr == old(repr) && numDiscardedOldPoints == 0
      ensures currentBucket == None && fresh(currentMbc) && currentMbc.entries == map[]
      ensures lastFlushCutoffTime == BucketStart(now, config.interval)
      ensures forall c :: For(metrics, c) == FlushEmission(config, old(Seen(c)), now).points
      ensures forall c :: Seen(c) == ContextFlow.Flush(config, old(Seen(c)), now)
    {
      hide FlushEmission, For, BucketStart;
      ghost var dicts := metricByBucket;
      var cutoff := BucketStart(now, config.interval);
      metrics := EmitAll(now);
      assert metricByBucket.Keys == Remaining(dicts.Keys, cutoff);
      assert forall c :: MetricsOf(c) == RemainingCells(old(MetricsOf(c)), cutoff);
      hide MetricsOf, Remaining, RemainingCells, RemainingDicts;
      EndFlush(cutoff);
    }

    method EndFlush(cutoff: real)
      modifies this`numDiscardedOldPoints, this`currentBucket, this`currentMbc, this`lastFlushCutoffTime
      ensures numDiscardedOldPoints == 0 && currentBucket == None && lastFlushCutoffTime == cutoff
      ensures fresh(currentMbc) && currentMbc.entries == map[]
    {
      numDiscardedOldPoints := 0;
      currentBucket := None;
      currentMbc := new ContextDict();
      lastFlushCutoffTime := cutoff;
    }

    /** Completed buckets, or zeros for live counters when there is no bucket at all. */
    method EmitAll(now: real) returns (metrics: seq<(Context, Point)>)
      requires Valid()
      modifies this`lastSampleTimeByContext, this`metricByBucket
      ensures metricByBucket == RemainingDicts(old(metricByBucket), BucketStart(now, config.interval))
      ensures forall c :: FlushEmission(config, old(Seen(c)), now) == Emission(Entry(lastSampleTimeByContext, c), For(metrics, c))
    {
      var cutoff := BucketStart(now, config.interval);
      var expiry := now - config.expirySeconds;
      hide For, CloseBuckets, BucketStart;
      if metricByBucket != map[] {
        metrics := FlushCompleted(cutoff, expiry);
      } else {
        metrics := [];
        NoPoints();
        if cutoff >= lastFlushCutoffTime + config.interval {
          metrics := CreateEmptyMetrics(lastSampleTimeByContext, expiry, cutoff - config.interval);
        }
      }
    }

    static function RemainingDicts(dicts: map<real, ContextDict>, cutoff: real): map<real, ContextDict> {
      map b | b in dicts && b >= cutoff :: dicts[b]
    }

    /** The loop over the sorted buckets; completed ones are deleted. */
    method FlushCompleted(cutoff: real, expiry: real) returns (metrics: seq<(Context, Point)>)
      requires Valid()
      modifies this`lastSampleTimeByContext, this`metricByBucket
      ensures metricByBucket == RemainingDicts(old(metricByBucket), cutoff)
      ensures forall c ::
        CloseBuckets(config, old(MetricsOf(c)), Entry(old(lastSampleTimeByContext), c), Sorted(old(metricByBucket.Keys)), cutoff, expiry)
        == Emission(Entry(lastSampleTimeByContext, c), For(metrics, c))
    {
      var keys := SortedKeys(metricByBucket.Keys);
      ListsUnique(keys, Sorted(metricByBucket.Keys), metricByBucket.Keys);
      hide For, CloseBuckets, CloseBucket, Sorted, Lists;
      metrics := FlushSorted(c => old(MetricsOf(c)), keys, cutoff, expiry);
    }

    method FlushSorted(ghost mine: Context -> map<real, SoundCell>, keys: seq<real>, cutoff: real, expiry: real)
      returns (metrics: seq<(Context, Point)>)
      requires Lists(keys, metricByBucket.Keys)
      requires forall b, c :: b in metricByBucket ==> Entry(metricByBucket[b].entries, c) == Lookup(mine(c), b)
      modifies this`lastSampleTimeByContext, this`metricByBucket
      ensures metricByBucket == RemainingDicts(old(metricByBucket), cutoff)
      ensures FlushedSoFar(mine, old(lastSampleTimeByContext), keys, metrics, cutoff, expiry)
    {
      hide FlushedSoFar, Entry, Lookup;
      metrics := [];
      ghost var start, done: set<real> := lastSampleTimeByContext, {};
      assert keys[..0] == [] && keys[..|keys|] == keys;
      Unflushed(mine, start, cutoff, expiry);
      for i := 0 to |keys|
        invariant metricByBucket == old(metricByBucket) - done
        invariant forall b :: b in done <==> b in keys[..i] && b < cutoff
        invariant FlushedSoFar(mine, start, keys[..i], metrics, cutoff, expiry)
      {
        assert keys[..i + 1] == keys[..i] + [keys[i]] && keys[i] !in keys[..i] && keys[i] in keys;
        var b := keys[i];
        if b < cutoff {
          done := done + {b};
        }
        metrics := FlushIfCompleted(mine, start, keys[..i], metrics, b, cutoff, expiry);
      }
    }

    /** What the loop over the sorted buckets has done once it has been through `prior`. */
    ghost predicate FlushedSoFar(mine: Context -> map<real, SoundCell>, start: map<Context, real>, prior: seq<real>,
                                 metrics: seq<(Context, Point)>, cutoff: real, expiry: real)
      reads this`lastSampleTimeByContext
    {
      forall c :: CloseBuckets(config, mine(c), Entry(start, c), prior, cutoff, expiry)
                  == Emission(Entry(lastSampleTimeByContext, c), For(metrics, c))
    }

    lemma Unflushed(mine: Context -> map<real, SoundCell>, start: map<Context, real>, cutoff: real, expiry: real)
      requires start == lastSampleTimeByContext
      ensures FlushedSoFar(mine, start, [], [], cutoff, expiry)
    {
    }

    /** One turn of that loop. */
    method FlushIfCompleted(ghost mine: Context -> map<real, SoundCell>, ghost start: map<Context, real>,
          ghost prior: seq<real>,
                            metrics: seq<(Context, Point)>, b: real, cutoff: real, expiry: real)
      returns (more: seq<(Context, Point)>)
      requires b in metricByBucket && forall c :: Entry(metricByBucket[b].entries, c) == Lookup(mine(c), b)
      requires FlushedSoFar(mine, start, prior, metrics, cutoff, expiry)
      modifies this`lastSampleTimeByContext, this`metricByBucket
      ensures metricByBucket == old(metricByBucket) - if b < cutoff then {b} else {}
      ensures FlushedSoFar(mine, start, prior + [b], more, cutoff, expiry)
    {
      hide For, CloseBuckets, CloseBucket, Lookup, Entry;
      more := metrics;
      if b < cutoff {
        var flushed := FlushBucket(metricByBucket[b].entries, b, expiry);
        more := Join(metrics, flushed);
        metricByBucket := metricByBucket - {b};
      }
      forall c
        ensures CloseBuckets(config, mine(c), Entry(start, c), prior + [b], cutoff, expiry)
             == Emission(Entry(lastSampleTimeByContext, c), For(more, c))
      {
        CloseOneMore(config, mine(c), Entry(start, c), prior, b, cutoff, expiry);
      }
    }
  }
}
