/** Python's `sorted`: a stable sort, written as insertion from the right. */
module Sorting {

  ghost predicate TotalPreorder<T(!new)>(le: (T, T) -> bool) {
    && (forall x, y :: le(x, y) || le(y, x))
    && (forall x, y, z :: le(x, y) && le(y, z) ==> le(x, z))
  }

  ghost predicate Antisymmetric<T(!new)>(le: (T, T) -> bool) {
    forall x, y :: le(x, y) && le(y, x) ==> x == y
  }

  ghost predicate Sorted<T>(xs: seq<T>, le: (T, T) -> bool) {
    forall i, j :: 0 <= i < j < |xs| ==> le(xs[i], xs[j])
  }

  function Insert<T>(x: T, xs: seq<T>, le: (T, T) -> bool): seq<T> {
    if xs == [] then [x]
    else if le(x, xs[0]) then [x] + xs
    else [xs[0]] + Insert(x, xs[1..], le)
  }

  function Sort<T>(xs: seq<T>, le: (T, T) -> bool): seq<T> {
    if xs == [] then [] else Insert(xs[0], Sort(xs[1..], le), le)
  }

  lemma {:induction false} InsertPermutes<T>(x: T, xs: seq<T>, le: (T, T) -> bool)
    ensures multiset(Insert(x, xs, le)) == multiset(xs) + multiset{x}
  {
    if xs != [] && !le(x, xs[0]) {
      InsertPermutes(x, xs[1..], le);
      assert xs == [xs[0]] + xs[1..];
    }
  }

  lemma {:induction false} SortPermutes<T>(xs: seq<T>, le: (T, T) -> bool)
    ensures multiset(Sort(xs, le)) == multiset(xs)
    ensures |Sort(xs, le)| == |xs|
  {
    if xs != [] {
      SortPermutes(xs[1..], le);
      InsertPermutes(xs[0], Sort(xs[1..], le), le);
      assert xs == [xs[0]] + xs[1..];
    }
    assert |multiset(Sort(xs, le))| == |Sort(xs, le)|;
  }

  lemma {:induction false} InsertSorts<T(!new)>(x: T, xs: seq<T>, le: (T, T) -> bool)
    requires TotalPreorder(le) && Sorted(xs, le)
    ensures Sorted(Insert(x, xs, le), le)
  {
    if xs != [] && !le(x, xs[0]) {
      InsertSorts(x, xs[1..], le);
      var r := Insert(x, xs[1..], le);
      forall j | 0 <= j < |r| ensures le(xs[0], r[j]) {
        InsertPermutes(x, xs[1..], le);
        assert r[j] in multiset(r);
        if r[j] != x { assert r[j] in xs[1..]; }
      }
    } else if xs != [] {
      forall j | 0 <= j < |xs| ensures le(x, xs[j]) {
        assert le(x, xs[0]) && (j > 0 ==> le(xs[0], xs[j]));
      }
    }
  }

  lemma {:induction false} SortSorts<T(!new)>(xs: seq<T>, le: (T, T) -> bool)
    requires TotalPreorder(le)
    ensures Sorted(Sort(xs, le), le)
  {
    if xs != [] {
      SortSorts(xs[1..], le);
      InsertSorts(xs[0], Sort(xs[1..], le), le);
    }
  }

  lemma HeadIsLeast<T(!new)>(xs: seq<T>, x: T, le: (T, T) -> bool)
    requires TotalPreorder(le) && Sorted(xs, le) && x in multiset(xs)
    ensures xs != [] && le(xs[0], x)
  {
    assert x in xs;
    var j :| 0 <= j < |xs| && xs[j] == x;
    assert le(xs[0], x) by {
      if j == 0 { assert le(x, x) || le(x, x); }
    }
  }

  /** A sorted list is determined by its elements when only equal elements tie. */
  lemma {:induction false} SortedUnique<T(!new)>(xs: seq<T>, ys: seq<T>, le: (T, T) -> bool)
    requires TotalPreorder(le) && Antisymmetric(le)
    requires Sorted(xs, le) && Sorted(ys, le) && multiset(xs) == multiset(ys)
    ensures xs == ys
    decreases |xs|
  {
    hide TotalPreorder, Antisymmetric;
    if xs == [] {
      assert |multiset(ys)| == |multiset(xs)| == 0;
    } else {
      assert |multiset(ys)| == |multiset(xs)| > 0;
      SameHead(xs, ys, le);
      assert Sorted(xs[1..], le) && Sorted(ys[1..], le);
      hide Sorted;
      assert xs == [xs[0]] + xs[1..] && ys == [ys[0]] + ys[1..];
      assert multiset(xs[1..]) == multiset(xs) - multiset{xs[0]};
      assert multiset(ys[1..]) == multiset(ys) - multiset{ys[0]};
      SortedUnique(xs[1..], ys[1..], le);
    }
  }

  lemma SameHead<T(!new)>(xs: seq<T>, ys: seq<T>, le: (T, T) -> bool)
    requires TotalPreorder(le) && Antisymmetric(le)
    requires Sorted(xs, le) && Sorted(ys, le) && multiset(xs) == multiset(ys)
    requires xs != [] && ys != []
    ensures xs[0] == ys[0]
  {
    HeadIsLeast(xs, ys[0], le);
    HeadIsLeast(ys, xs[0], le);
  }

  /** `sorted(xs, key=...)` decorates each position with its key; the position
      breaks ties, which is what makes the result stable. */
  datatype Keyed = Keyed(major: int, minor: int, position: nat)

  predicate KeyLe(a: Keyed, b: Keyed) {
    a.major < b.major ||
    (a.major == b.major && (a.minor < b.minor ||
                            (a.minor == b.minor && a.position <= b.position)))
  }

  function Decorate(keys: seq<(int, int)>): seq<Keyed> {
    seq(|keys|, i requires 0 <= i < |keys| => Keyed(keys[i].0, keys[i].1, i))
  }

  /** Positions of `keys` in ascending order of key. */
  function SortOrder(keys: seq<(int, int)>): (order: seq<nat>)
    ensures |order| == |keys|
    ensures forall i :: 0 <= i < |order| ==> order[i] < |keys|
  {
    SortPermutes(Decorate(keys), KeyLe);
    var entries := Sort(Decorate(keys), KeyLe);
    assert forall i :: 0 <= i < |entries| ==> entries[i].position < |keys| by {
      forall i | 0 <= i < |entries| ensures entries[i].position < |keys| {
        assert entries[i] in multiset(entries);
        assert entries[i] in Decorate(keys);
      }
    }
    seq(|entries|, i requires 0 <= i < |entries| => entries[i].position)
  }

  lemma KeysAreOrdered()
    ensures TotalPreorder(KeyLe)
  {
  }

  /** The order is a permutation of the positions along which keys ascend, with
      ties in their original order. */
  lemma SortOrderAscends(keys: seq<(int, int)>)
    ensures forall k :: 0 <= k < |keys| ==> k in SortOrder(keys)
    ensures forall i, j :: 0 <= i < j < |keys| ==>
      var a, b := SortOrder(keys)[i], SortOrder(keys)[j];
      a != b && KeyLe(Keyed(keys[a].0, keys[a].1, a), Keyed(keys[b].0, keys[b].1, b))
  {
    hide Sort, TotalPreorder;
    KeysAreOrdered();
    var ds := Decorate(keys);
    var entries := Sort(ds, KeyLe);
    SortPermutes(ds, KeyLe);
    SortSorts(ds, KeyLe);
    forall i | 0 <= i < |entries|
      ensures entries[i].position < |ds| && entries[i] == ds[entries[i].position]
      ensures SortOrder(keys)[i] == entries[i].position
    {
      assert entries[i] in multiset(entries);
      assert entries[i] in ds;
    }
    forall k | 0 <= k < |keys| ensures k in SortOrder(keys) {
      assert ds[k] in multiset(ds);
      assert ds[k] in entries;
      var i :| 0 <= i < |entries| && entries[i] == ds[k];
      assert SortOrder(keys)[i] == k;
    }
    DistinctCounts(ds);
    forall i, j | 0 <= i < j < |keys|
      ensures entries[i].position != entries[j].position && KeyLe(entries[i], entries[j])
    {
      assert multiset(entries)[entries[i]] == 1;
      if entries[i].position == entries[j].position {
        TwiceCounts(entries, i, j);
        assert false;
      }
    }
  }

  lemma {:induction false} DistinctCounts<T>(xs: seq<T>)
    requires forall i, j :: 0 <= i < j < |xs| ==> xs[i] != xs[j]
    ensures forall x :: x in xs ==> multiset(xs)[x] == 1
  {
    if xs != [] {
      DistinctCounts(xs[1..]);
      assert xs == [xs[0]] + xs[1..];
      assert xs[0] !in xs[1..];
      assert xs[0] !in multiset(xs[1..]);
    }
  }

  lemma TwiceCounts<T>(xs: seq<T>, i: nat, j: nat)
    requires i < j < |xs| && xs[i] == xs[j]
    ensures multiset(xs)[xs[i]] >= 2
  {
    assert xs == xs[..j] + [xs[j]] + xs[j + 1..];
    assert xs[i] in xs[..j];
    assert xs[i] in multiset(xs[..j]);
    assert multiset(xs) == multiset(xs[..j]) + multiset{xs[j]} + multiset(xs[j + 1..]);
  }
}
