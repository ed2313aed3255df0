/**
 The metric classes of aggregator.py as state transformers. `last_sample_time` is
 `sampledAt`, absent until a sample has gone through; formatters, names, tags and hosts
 are carried along unchanged by the source and are left to the context.
 */
module Metrics {
  import opened Prelude
  import opened Sorting

  datatype MetricType = GaugeType | CounterType | HistogramType | SetType | UnknownType

  datatype Metric =
    | CounterMetric(value: real)
    | GaugeMetric(latest: Option<real>)
    | HistogramMetric(count: int, samples: seq<real>)
    | SetMetric(values: set<real>)

  datatype CellData = Cell(metric: Metric, sampledAt: Option<real>)

  /** A histogram that counts something has samples, so that flushing it can index them. */
  predicate Sound(cell: CellData) {
    cell.metric.HistogramMetric? && cell.metric.count != 0 ==> cell.metric.samples != []
  }

  type SoundCell = cell: CellData | Sound(cell) witness Cell(CounterMetric(0.0), None)

  datatype Aggregate = Min | Max | Median | Avg | Sum | Count

  /** What distinguishes the points of one metric: `name`, `name.max`, `name.95percentile`. */
  datatype Suffix = Plain | Aggregated(aggregate: Aggregate) | Percentile(percent: int)

  datatype Point = Point(suffix: Suffix, timestamp: real, value: real)

  /** `int(x)`: truncation toward zero. */
  function Truncate(x: real): int {
    if x >= 0.0 then x.Floor else -((-x).Floor)
  }

  /** Python 2's `round`: halves away from zero. */
  function Round(x: real): int {
    if x >= 0.0 then (x + 0.5).Floor else -((-x + 0.5).Floor)
  }

  /** How many points a sample stands for: `int(1 / sample_rate)`. */
  function Weight(rate: real): int
    requires rate != 0.0
  {
    Truncate(1.0 / rate)
  }

  /** A freshly constructed metric of a known type. */
  function Fresh(mtype: MetricType): SoundCell
    requires !mtype.UnknownType?
  {
    Cell(match mtype
         case CounterType => CounterMetric(0.0)
         case GaugeType => GaugeMetric(None)
         case HistogramType => HistogramMetric(0, [])
         case SetType => SetMetric({}),
         None)
  }

  /** `sample`; counters and histograms divide by the rate first, so that a zero rate
      raises and leaves the metric as it was. */
  function Sample(cell: SoundCell, value: real, rate: real, at: real): Option<SoundCell> {
    match cell.metric
    case CounterMetric(v) =>
      if rate == 0.0 then None else Some(Cell(CounterMetric(v + value * Weight(rate) as real), Some(at)))
    case GaugeMetric(_) => Some(Cell(GaugeMetric(Some(value)), Some(at)))
    case HistogramMetric(n, xs) =>
      if rate == 0.0 then None else Some(Cell(HistogramMetric(n + Weight(rate), xs + [value]), Some(at)))
    case SetMetric(vs) => Some(Cell(SetMetric(vs + {value}), Some(at)))
  }

  // ---------- histograms ----------

  predicate RealLe(a: real, b: real) { a <= b }

  function SumOf(xs: seq<real>): real {
    if xs == [] then 0.0 else SumOf(xs[..|xs| - 1]) + xs[|xs| - 1]
  }

  /** `s[i]`, counting from the end when i is negative. */
  function At<T>(s: seq<T>, i: int): T
    requires -|s| <= i < |s|
  {
    if i < 0 then s[|s| + i] else s[i]
  }

  /** `int(round(length/2 - 1))`, with Python 2's integer division. */
  function MedianIndex(n: nat): int { n / 2 - 1 }

  /** `int(round(p * length - 1))`. */
  function PercentileIndex(p: real, n: nat): int { Round(p * n as real - 1.0) }

  /** Configured percentiles lie in [0, 1). */
  datatype HistogramConfig = HistogramConfig(aggregates: seq<Aggregate>, percentiles: seq<real>)

  ghost predicate ValidConfig(hc: HistogramConfig) {
    forall i :: 0 <= i < |hc.percentiles| ==> 0.0 <= hc.percentiles[i] < 1.0
  }

  lemma Scale(p: real, q: real, n: real)
    requires p <= q && n >= 0.0
    ensures p * n <= q * n
  {
  }

  lemma RoundBelow(x: real, n: nat)
    requires n > 0 && -1.0 <= x <= n as real - 1.0
    ensures -1 <= Round(x) < n
  {
    if x >= 0.0 {
      assert (x + 0.5).Floor as real <= x + 0.5 < n as real;
    }
  }

  lemma IndicesInRange(n: nat, p: real)
    requires n > 0 && 0.0 <= p <= 1.0
    ensures -1 <= MedianIndex(n) < n
    ensures -1 <= PercentileIndex(p, n) < n
  {
    var y := p * n as real;
    Scale(0.0, p, n as real);
    Scale(p, 1.0, n as real);
    RoundBelow(y - 1.0, n);
  }

  function AggregateValue(a: Aggregate, sorted: seq<real>, count: int, interval: real): real
    requires sorted != [] && interval > 0.0
  {
    IndicesInRange(|sorted|, 0.0);
    match a
    case Min => sorted[0]
    case Max => sorted[|sorted| - 1]
    case Median => At(sorted, MedianIndex(|sorted|))
    case Sum => SumOf(sorted)
    case Avg => SumOf(sorted) / |sorted| as real
    case Count => count as real / interval
  }

  /** The order in which the source lists its aggregates. */
  const AGGREGATES := [Min, Max, Median, Avg, Sum, Count]

  function AggregatePoints(order: seq<Aggregate>, wanted: seq<Aggregate>, sorted: seq<real>, count: int, ts: real,
        interval: real): seq<Point>
    requires sorted != [] && interval > 0.0
    decreases |order|
  {
    if order == [] then []
    else
      var n := |order| - 1;
      var before := AggregatePoints(order[..n], wanted, sorted, count, ts, interval);
      if order[n] in wanted
      then before + [Point(Aggregated(order[n]), ts, AggregateValue(order[n], sorted, count, interval))]
      else before
  }

  function PercentileValue(p: real, sorted: seq<real>): real
    requires sorted != [] && 0.0 <= p <= 1.0
  {
    IndicesInRange(|sorted|, p);
    At(sorted, PercentileIndex(p, |sorted|))
  }

  function PercentilePoints(ps: seq<real>, sorted: seq<real>, ts: real): seq<Point>
    requires sorted != [] && forall i :: 0 <= i < |ps| ==> 0.0 <= ps[i] < 1.0
    decreases |ps|
  {
    if ps == [] then []
    else
      var n := |ps| - 1;
      PercentilePoints(ps[..n], sorted, ts) + [Point(Percentile(Truncate(ps[n] * 100.0)), ts, PercentileValue(ps[n], sorted))]
  }

  function HistogramPoints(hc: HistogramConfig, count: int, samples: seq<real>, ts: real, interval: real): seq<Point>
    requires ValidConfig(hc) && interval > 0.0 && (count != 0 ==> samples != [])
  {
    if count == 0 then []
    else
      SortPermutes(samples, RealLe);
      var sorted := Sort(samples, RealLe);
      AggregatePoints(AGGREGATES, hc.aggregates, sorted, count, ts, interval) + PercentilePoints(hc.percentiles, sorted, ts)
  }

  // ---------- flush ----------

  function FlushPoints(hc: HistogramConfig, cell: SoundCell, ts: real, interval: real): seq<Point>
    requires ValidConfig(hc) && interval > 0.0
  {
    match cell.metric
    case CounterMetric(v) => [Point(Plain, ts, v / interval)]
    case GaugeMetric(v) => if v.Some? then [Point(Plain, ts, v.value)] else []
    case HistogramMetric(n, xs) => HistogramPoints(hc, n, xs, ts, interval)
    case SetMetric(vs) => if vs == {} then [] else [Point(Plain, ts, |vs| as real)]
  }
}
