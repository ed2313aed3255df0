/** Bucket arithmetic: `timestamp - (timestamp % interval)` over the reals. */
module Buckets {

  function Times(a: real, b: real): real { a * b }

  function Multiple(k: int, interval: real): real { Times(k as real, interval) }

  /** The remainder takes t down to a multiple of the interval. */
  function BucketStart(t: real, interval: real): real
    requires interval > 0.0
  {
    Multiple((t / interval).Floor, interval)
  }

  ghost predicate IsBucket(b: real, interval: real) {
    exists k: int :: b == Multiple(k, interval)
  }

  lemma TimesMonotone(a: real, b: real, i: real)
    requires i > 0.0
    ensures a <= b ==> Times(a, i) <= Times(b, i)
    ensures a < b ==> Times(a, i) < Times(b, i)
  {
  }

  lemma TimesNext(a: real, i: real)
    ensures Times(a + 1.0, i) == Times(a, i) + i
    ensures Times(a - 1.0, i) == Times(a, i) - i
  {
  }

  lemma TimesQuotient(t: real, i: real)
    requires i > 0.0
    ensures Times(t / i, i) == t / i * i == t
  {
  }

  /** The bucket of t is the multiple of the interval that t falls behind by less than one. */
  lemma BucketBounds(t: real, interval: real)
    requires interval > 0.0
    ensures BucketStart(t, interval) <= t < BucketStart(t, interval) + interval
    ensures IsBucket(BucketStart(t, interval), interval)
  {
    hide Times;
    var q := t / interval;
    var k := q.Floor as real;
    TimesQuotient(t, interval);
    TimesMonotone(k, q, interval);
    TimesMonotone(q, k + 1.0, interval);
    TimesNext(k, interval);
  }

  lemma QuotientMonotone(t: real, u: real, i: real)
    requires i > 0.0 && t <= u
    ensures t / i <= u / i
  {
    assert u / i - t / i == (u - t) / i;
  }

  lemma BucketMonotone(t: real, u: real, interval: real)
    requires interval > 0.0 && t <= u
    ensures BucketStart(t, interval) <= BucketStart(u, interval)
  {
    hide Times;
    QuotientMonotone(t, u, interval);
    MultipleMonotone((t / interval).Floor, (u / interval).Floor, interval);
  }

  lemma MultipleMonotone(i: int, j: int, interval: real)
    requires interval > 0.0 && i <= j
    ensures Multiple(i, interval) <= Multiple(j, interval)
    ensures i < j ==> Multiple(i, interval) + interval <= Multiple(j, interval)
  {
    hide Times;
    TimesMonotone(i as real, j as real, interval);
    TimesMonotone(i as real + 1.0, j as real, interval);
    TimesNext(i as real, interval);
  }

  /** Distinct buckets are at least an interval apart. */
  lemma BucketGap(a: real, b: real, interval: real)
    requires interval > 0.0 && IsBucket(a, interval) && IsBucket(b, interval) && a < b
    ensures a + interval <= b
  {
    hide Times;
    var i: int :| a == Multiple(i, interval);
    var j: int :| b == Multiple(j, interval);
    if i < j {
      MultipleMonotone(i, j, interval);
    } else {
      MultipleMonotone(j, i, interval);
      assert false;
    }
  }

  lemma PreviousBucket(b: real, interval: real)
    requires IsBucket(b, interval)
    ensures IsBucket(b - interval, interval)
  {
    hide Times;
    var k: int :| b == Multiple(k, interval);
    TimesNext(k as real, interval);
    assert (k - 1) as real == k as real - 1.0;
    assert b - interval == Multiple(k - 1, interval);
  }

  lemma BucketOfNonnegative(t: real, interval: real)
    requires interval > 0.0 && t >= 0.0
    ensures BucketStart(t, interval) >= 0.0
  {
    hide Times;
    var q := t / interval;
    assert q >= 0.0;
    TimesMonotone(0.0, q.Floor as real, interval);
    TimesZero(interval);
  }

  lemma TimesZero(i: real)
    ensures Times(0.0, i) == 0.0
  {
  }
}
