/** The bucket aggregator's metric classes, each against its transformer in `Metrics`. */
module MetricObjects {
  import opened Prelude
  import opened Sorting
  import opened Metrics

  class Counter {
    var value: real
    var lastSampleTime: Option<real>

    constructor ()
      ensures Value() == Fresh(CounterType)
    {
      value, lastSampleTime := 0.0, None;
    }

    ghost function Value(): CellData
      reads this
    {
      Cell(CounterMetric(value), lastSampleTime)
    }

    /** False when `1 / sample_rate` raised. */
    method Sample(v: real, rate: real, now: real) returns (ok: bool)
      modifies this
      ensures ok == Metrics.Sample(old(Value()), v, rate, now).Some?
      ensures Value() == if ok then Metrics.Sample(old(Value()), v, rate, now).value else old(Value())
    {
      ok := rate != 0.0;
      if ok {
        value := value + v * Weight(rate) as real;
        lastSampleTime := Some(now);
      }
    }

    method Flush(ghost hc: HistogramConfig, ts: real, interval: real) returns (points: seq<Point>)
      requires ValidConfig(hc) && interval > 0.0
      modifies this
      ensures points == FlushPoints(hc, old(Value()), ts, interval)
      ensures Value() == old(Value()).(metric := CounterMetric(0.0))
    {
      points := [Point(Plain, ts, value / interval)];
      value := 0.0;
    }
  }

  class BucketGauge {
    var value: Option<real>
    var lastSampleTime: Option<real>

    constructor ()
      ensures Value() == Fresh(GaugeType)
    {
      value, lastSampleTime := None, None;
    }

    ghost function Value(): CellData
      reads this
    {
      Cell(GaugeMetric(value), lastSampleTime)
    }

    method Sample(v: real, ghost rate: real, now: real)
      modifies this
      ensures Some(Value()) == Metrics.Sample(old(Value()), v, rate, now)
    {
      value := Some(v);
      lastSampleTime := Some(now);
    }

    method Flush(ghost hc: HistogramConfig, ts: real, ghost interval: real) returns (points: seq<Point>)
      requires ValidConfig(hc) && interval > 0.0
      modifies this
      ensures points == FlushPoints(hc, old(Value()), ts, interval)
      ensures Value() == old(Value()).(metric := GaugeMetric(None))
    {
      points := [];
      if value.Some? {
        points := [Point(Plain, ts, value.value)];
        value := None;
      }
    }
  }

  class UniqueValues {
    var values: set<real>
    var lastSampleTime: Option<real>

    constructor ()
      ensures Value() == Fresh(SetType)
    {
      values, lastSampleTime := {}, None;
    }

    ghost function Value(): CellData
      reads this
    {
      Cell(SetMetric(values), lastSampleTime)
    }

    method Sample(v: real, ghost rate: real, now: real)
      modifies this
      ensures Some(Value()) == Metrics.Sample(old(Value()), v, rate, now)
    {
      values := values + {v};
      lastSampleTime := Some(now);
    }

    method Flush(ghost hc: HistogramConfig, ts: real, ghost interval: real) returns (points: seq<Point>)
      requires ValidConfig(hc) && interval > 0.0
      modifies this
      ensures points == FlushPoints(hc, old(Value()), ts, interval)
      ensures Value() == old(Value()).(metric := SetMetric({}))
    {
      points := [];
      if values != {} {
        points := [Point(Plain, ts, |values| as real)];
        values := {};
      }
    }
  }

  class Histogram {
    const config: HistogramConfig
    var count: int
    var samples: seq<real>
    var lastSampleTime: Option<real>

    constructor (config: HistogramConfig)
      ensures this.config == config && Value() == Fresh(HistogramType)
    {
      this.config := config;
      count, samples, lastSampleTime := 0, [], None;
    }

    ghost function Value(): CellData
      reads this
    {
      Cell(HistogramMetric(count, samples), lastSampleTime)
    }

    method Sample(v: real, rate: real, now: real) returns (ok: bool)
      requires Sound(Value())
      modifies this
      ensures ok == Metrics.Sample(old(Value()), v, rate, now).Some?
      ensures Value() == if ok then Metrics.Sample(old(Value()), v, rate, now).value else old(Value())
      ensures Sound(Value())
    {
      ok := rate != 0.0;
      if ok {
        count := count + Weight(rate);
        samples := samples + [v];
        lastSampleTime := Some(now);
      }
    }

    method Flush(ts: real, interval: real) returns (points: seq<Point>)
      requires ValidConfig(config) && interval > 0.0 && Sound(Value())
      modifies this
      ensures points == FlushPoints(config, old(Value()), ts, interval)
      ensures Value() == old(Value()).(metric := HistogramMetric(0, if old(count) == 0 then old(samples) else []))
    {
      if count == 0 {
        return [];
      }
      SortPermutes(samples, RealLe);
      samples := Sort(samples, RealLe);
      points := [];
      for i := 0 to |AGGREGATES|
        invariant points == AggregatePoints(AGGREGATES[..i], config.aggregates, samples, count, ts, interval)
      {
        assert AGGREGATES[..i + 1][..i] == AGGREGATES[..i];
        if AGGREGATES[i] in config.aggregates {
          points := points + [Point(Aggregated(AGGREGATES[i]), ts, AggregateValue(AGGREGATES[i], samples, count, interval))];
        }
      }
      assert AGGREGATES[..|AGGREGATES|] == AGGREGATES;
      ghost var first := points;
      for i := 0 to |config.percentiles|
        invariant points == first + PercentilePoints(config.percentiles[..i], samples, ts)
      {
        assert config.percentiles[..i + 1][..i] == config.percentiles[..i];
        var p := config.percentiles[i];
        points := points + [Point(Percentile(Truncate(p * 100.0)), ts, PercentileValue(p, samples))];
      }
      assert config.percentiles[..|config.percentiles|] == config.percentiles;
      samples := [];
      count := 0;
    }
  }
}
