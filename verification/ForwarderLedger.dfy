/** Accounting and eviction: what `append` and the completions do to the queue. */
module ForwarderLedger {
  import opened Prelude
  import opened Sorting
  import opened Forwarder

  ghost predicate Ascending(xs: seq<nat>) {
    forall i, j :: 0 <= i < j < |xs| ==> xs[i] < xs[j]
  }

  ghost function SumSizes(trs: map<nat, Tr>, ids: seq<nat>): nat
    decreases |ids|
  {
    if ids == [] then 0 else At(trs, ids[0]).size + SumSizes(trs, ids[1..])
  }

  /** The totals are what they claim to be, every transaction received is queued,
      flushed or evicted, and ids ascend along the queue. */
  ghost predicate Accounted(trs: map<nat, Tr>, l: Ledger) {
    && l.totalCount == |l.transactions|
    && l.totalSize == SumSizes(trs, l.transactions)
    && l.received == |l.transactions| + l.flushed + |l.evicted|
    && l.rejected <= l.flushed
    && l.received == l.counter
    && Ascending(l.transactions)
    && (forall id :: id in l.transactions ==> 1 <= id <= l.counter)
    && (forall id :: id in l.evicted ==> 1 <= id <= l.counter && id !in l.transactions)
  }

  // ---------- lists ----------

  lemma {:induction false} RemoveFirstAscending(xs: seq<nat>, x: nat)
    requires Ascending(xs)
    ensures Ascending(RemoveFirst(xs, x))
    ensures forall y :: y in RemoveFirst(xs, x) <==> y in xs && y != x
    ensures |RemoveFirst(xs, x)| == |xs| - if x in xs then 1 else 0
    decreases |xs|
  {
    if xs != [] {
      assert xs == [xs[0]] + xs[1..];
      assert forall y :: y in xs[1..] ==> xs[0] < y;
      if xs[0] != x {
        RemoveFirstAscending(xs[1..], x);
        var r := RemoveFirst(xs[1..], x);
        forall j | 0 <= j < |r| ensures xs[0] < r[j] {
          assert r[j] in r;
        }
      }
    }
  }

  lemma {:induction false} SumRemoveFirst(trs: map<nat, Tr>, xs: seq<nat>, x: nat)
    requires x in xs
    ensures SumSizes(trs, RemoveFirst(xs, x)) == SumSizes(trs, xs) - At(trs, x).size
    decreases |xs|
  {
    if xs[0] != x {
      SumRemoveFirst(trs, xs[1..], x);
      assert ([xs[0]] + RemoveFirst(xs[1..], x))[1..] == RemoveFirst(xs[1..], x);
    }
  }

  lemma {:induction false} SumAppend(trs: map<nat, Tr>, xs: seq<nat>, x: nat)
    ensures SumSizes(trs, xs + [x]) == SumSizes(trs, xs) + At(trs, x).size
    decreases |xs|
  {
    if xs != [] {
      SumAppend(trs, xs[1..], x);
      assert (xs + [x])[1..] == xs[1..] + [x];
    }
  }

  lemma {:induction false} SumSameSizes(trs: map<nat, Tr>, trs': map<nat, Tr>, xs: seq<nat>)
    requires forall x :: x in xs ==> At(trs', x).size == At(trs, x).size
    ensures SumSizes(trs', xs) == SumSizes(trs, xs)
    decreases |xs|
  {
    if xs != [] { SumSameSizes(trs, trs', xs[1..]); }
  }

  // ---------- eviction ----------

  /** Due no later, or equally late and newer: survives longer. */
  ghost predicate EvictedBefore(trs: map<nat, Tr>, a: nat, b: nat) {
    At(trs, a).nextFlush > At(trs, b).nextFlush || (At(trs, a).nextFlush == At(trs, b).nextFlush && a < b)
  }

  /** `order` lists exactly `ids`, those evicted first coming first. */
  ghost predicate OrdersEviction(trs: map<nat, Tr>, ids: seq<nat>, order: seq<nat>) {
    && |order| == |ids|
    && (forall id :: id in order <==> id in ids)
    && (forall i, j :: 0 <= i < j < |order| ==> EvictedBefore(trs, order[i], order[j]))
  }

  lemma EvictionOrderMeaning(trs: map<nat, Tr>, ids: seq<nat>)
    requires Ascending(ids)
    ensures OrdersEviction(trs, ids, EvictionOrder(trs, ids))
  {
    var keys: seq<(int, int)> := seq(|ids|, i requires 0 <= i < |ids| => (-At(trs, ids[i]).nextFlush, 0));
    var order := SortOrder(keys);
    SortOrderAscends(keys);
    forall id | id in ids ensures id in EvictionOrder(trs, ids) {
      var k :| 0 <= k < |ids| && ids[k] == id;
      assert k in order;
      var i :| 0 <= i < |order| && order[i] == k;
      assert EvictionOrder(trs, ids)[i] == id;
    }
  }

  /** Remove all of `victims`, in order. */
  ghost function EvictAll(trs: map<nat, Tr>, l: Ledger, victims: seq<nat>): Ledger
    decreases |victims|
  {
    if victims == [] then l
    else EvictOne(trs, EvictAll(trs, l, victims[..|victims| - 1]), victims[|victims| - 1])
  }

  /** How many candidates the loop removes: as long as there is no room. */
  ghost function Victims(cfg: Config, trs: map<nat, Tr>, l: Ledger, candidates: seq<nat>, size: nat): (k: nat)
    ensures k <= |candidates|
    decreases |candidates|
  {
    if candidates == [] then 0
    else
      var n := |candidates| - 1;
      var k := Victims(cfg, trs, l, candidates[..n], size);
      if k == n && EvictAll(trs, l, candidates[..n]).totalSize + size > cfg.maxQueueSize then n + 1 else k
  }

  /** The loop removes the shortest prefix of the candidates that makes room. */
  lemma {:induction false} EvictIsPrefix(cfg: Config, trs: map<nat, Tr>, l: Ledger, candidates: seq<nat>, size: nat)
    ensures var k := Victims(cfg, trs, l, candidates, size);
      && Evict(cfg, trs, l, candidates, size) == EvictAll(trs, l, candidates[..k])
      && (k < |candidates| ==> EvictAll(trs, l, candidates[..k]).totalSize + size <= cfg.maxQueueSize)
      && (forall j :: 0 <= j < k ==> EvictAll(trs, l, candidates[..j]).totalSize + size > cfg.maxQueueSize)
    decreases |candidates|
  {
    hide EvictOne;
    if candidates != [] {
      var n := |candidates| - 1;
      var rest := candidates[..n];
      EvictIsPrefix(cfg, trs, l, rest, size);
      var k := Victims(cfg, trs, l, rest, size);
      assert forall j :: 0 <= j <= n ==> rest[..j] == candidates[..j];
      assert candidates[..|candidates|] == candidates;
      assert rest[..k] == candidates[..k];
    }
  }

  /** A ledger whose queue and totals agree. */
  ghost predicate Totalled(trs: map<nat, Tr>, l: Ledger) {
    Ascending(l.transactions) && l.totalCount == |l.transactions| && l.totalSize == SumSizes(trs, l.transactions)
  }

  /** `r` is `l` without `victims`: survivors keep their order, nothing else changes. */
  ghost predicate Without(trs: map<nat, Tr>, l: Ledger, victims: seq<nat>, r: Ledger) {
    && Totalled(trs, r)
    && (forall id :: id in r.transactions <==> id in l.transactions && id !in victims)
    && |r.transactions| == |l.transactions| - |victims|
    && r == l.(transactions := r.transactions, totalCount := r.totalCount,
               totalSize := r.totalSize, evicted := l.evicted + victims)
  }

  /** Eviction neither looks at the id counter nor changes it. */
  lemma {:induction false} EvictIgnoresCounter(cfg: Config, trs: map<nat, Tr>, l: Ledger, candidates: seq<nat>,
        size: nat, n: nat)
    ensures Evict(cfg, trs, l.(counter := n), candidates, size) == Evict(cfg, trs, l, candidates, size).(counter := n)
    ensures Evict(cfg, trs, l, candidates, size).counter == l.counter
    decreases |candidates|
  {
    if candidates != [] { EvictIgnoresCounter(cfg, trs, l, candidates[..|candidates| - 1], size, n); }
  }

  lemma EvictOneEffect(trs: map<nat, Tr>, l: Ledger, id: nat)
    requires Totalled(trs, l) && id in l.transactions
    ensures Without(trs, l, [id], EvictOne(trs, l, id))
  {
    RemoveFirstAscending(l.transactions, id);
    SumRemoveFirst(trs, l.transactions, id);
  }

  lemma {:induction false} EvictAllEffect(trs: map<nat, Tr>, l: Ledger, victims: seq<nat>)
    requires Totalled(trs, l)
    requires forall i :: 0 <= i < |victims| ==> victims[i] in l.transactions
    requires forall i, j :: 0 <= i < j < |victims| ==> victims[i] != victims[j]
    ensures Without(trs, l, victims, EvictAll(trs, l, victims))
    decreases |victims|
  {
    if victims != [] {
      var n := |victims| - 1;
      EvictAllEffect(trs, l, victims[..n]);
      assert victims == victims[..n] + [victims[n]];
      EvictOneEffect(trs, EvictAll(trs, l, victims[..n]), victims[n]);
      assert l.evicted + victims[..n] + [victims[n]] == l.evicted + victims;
    } else {
      assert l.evicted + victims == l.evicted;
    }
  }

  /** What the loop evicts, in full: the shortest prefix of the eviction order that
      makes room, and every survivor is due no later than every victim. */
  ghost predicate Evicted(cfg: Config, trs: map<nat, Tr>, l: Ledger, order: seq<nat>, size: nat, victims: seq<nat>,
        r: Ledger) {
    && Without(trs, l, victims, r)
    && victims <= order
    && (forall id :: id in victims ==> id in l.transactions)
    // room was made, or nothing is left to evict
    && (r.totalSize + size <= cfg.maxQueueSize || (r.transactions == [] && r.totalSize == 0))
    // one victim fewer would not have been enough
    && (forall j :: 0 <= j < |victims| ==> EvictAll(trs, l, victims[..j]).totalSize + size > cfg.maxQueueSize)
    && (forall x, y :: x in r.transactions && y in victims ==> EvictedBefore(trs, y, x))
  }

  lemma MakeRoomEffect(cfg: Config, trs: map<nat, Tr>, l: Ledger, size: nat) returns (victims: seq<nat>)
    requires Totalled(trs, l)
    ensures Evicted(cfg, trs, l, EvictionOrder(trs, l.transactions), size, victims, MakeRoom(cfg, trs, l, size))
  {
    var order := EvictionOrder(trs, l.transactions);
    if l.totalSize + size <= cfg.maxQueueSize {
      victims := [];
      assert l.evicted + victims == l.evicted;
    } else {
      EvictionOrderMeaning(trs, l.transactions);
      victims := EvictEffect(cfg, trs, l, order, size);
    }
  }

  lemma EvictEffect(cfg: Config, trs: map<nat, Tr>, l: Ledger, order: seq<nat>, size: nat) returns (victims: seq<nat>)
    requires Totalled(trs, l) && OrdersEviction(trs, l.transactions, order)
    ensures Evicted(cfg, trs, l, order, size, victims, Evict(cfg, trs, l, order, size))
  {
    hide Victims, Evict, EvictAll, EvictedBefore, Totalled;
    var k := Victims(cfg, trs, l, order, size);
    EvictIsPrefix(cfg, trs, l, order, size);
    victims := order[..k];
    assert forall j :: 0 <= j < k ==> victims[..j] == order[..j];
    PrefixDistinct(trs, l.transactions, order, k);
    EvictAllEffect(trs, l, victims);
    if k == |order| { NothingLeft(trs, l, victims, EvictAll(trs, l, victims)); }
    SurvivorsDueSooner(trs, order, k);
  }

  lemma PrefixDistinct(trs: map<nat, Tr>, ids: seq<nat>, order: seq<nat>, k: nat)
    requires OrdersEviction(trs, ids, order) && k <= |order|
    ensures forall i :: 0 <= i < k ==> order[..k][i] in ids
    ensures forall i, j :: 0 <= i < j < k ==> order[..k][i] != order[..k][j]
  {
    assert forall i :: 0 <= i < k ==> order[..k][i] == order[i] && order[i] in order;
  }

  lemma NothingLeft(trs: map<nat, Tr>, l: Ledger, victims: seq<nat>, r: Ledger)
    requires Without(trs, l, victims, r) && |victims| == |l.transactions|
    ensures r.transactions == [] && r.totalSize == 0
  {
  }

  lemma SurvivorsDueSooner(trs: map<nat, Tr>, order: seq<nat>, k: nat)
    requires k <= |order|
    requires forall i, j :: 0 <= i < j < |order| ==> EvictedBefore(trs, order[i], order[j])
    ensures forall x, y :: x in order && x !in order[..k] && y in order[..k] ==> EvictedBefore(trs, y, x)
  {
    forall x, y | x in order && x !in order[..k] && y in order[..k] ensures EvictedBefore(trs, y, x) {
      var i :| 0 <= i < k && order[i] == y;
      var j :| 0 <= j < |order| && order[j] == x;
      assert forall m :: 0 <= m < k ==> order[..k][m] == order[m];
    }
  }

  lemma {:induction false} EvictAllSize(trs: map<nat, Tr>, l: Ledger, victims: seq<nat>)
    ensures EvictAll(trs, l, victims).totalSize == l.totalSize - SumSizes(trs, victims)
    decreases |victims|
  {
    if victims != [] {
      var n := |victims| - 1;
      EvictAllSize(trs, l, victims[..n]);
      SumAppend(trs, victims[..n], victims[n]);
      assert victims == victims[..n] + [victims[n]];
    }
  }

  /** Eviction is minimal and ordered, and the size bound holds afterwards: `append`
      evicts the shortest prefix of the queue, latest next flush first, that makes room. */
  lemma AppendEvicts(cfg: Config, s: State, endpoint: string, size: nat, created: int) returns (victims: seq<nat>)
    requires Accounted(s.trs, s.ledger)
    ensures victims <= EvictionOrder(s.trs, s.ledger.transactions)
    ensures forall j :: 0 <= j < |victims| ==>
              s.ledger.totalSize - SumSizes(s.trs, victims[..j]) + size > cfg.maxQueueSize
    ensures var r := Append(cfg, s, endpoint, size, created).ledger; var n := |s.ledger.transactions| - |victims|;
      && r.evicted == s.ledger.evicted + victims
      && |r.transactions| == n + 1 && r.transactions[n] == s.ledger.counter + 1
      && Ascending(r.transactions[..n])
      && (forall id :: id in r.transactions[..n] <==> id in s.ledger.transactions && id !in victims)
      && (forall x, y :: x in r.transactions[..n] && y in victims ==> At(s.trs, x).nextFlush <= At(s.trs, y).nextFlush)
      && (r.totalSize <= cfg.maxQueueSize || (r.totalSize == size && n == 0))
  {
    victims := MakeRoomEffect(cfg, s.trs, s.ledger, size);
    hide MakeRoom, EvictionOrder, EvictAll, SumSizes, Ascending;
    var r := MakeRoom(cfg, s.trs, s.ledger, size);
    assert (r.transactions + [r.counter + 1])[..|r.transactions|] == r.transactions;
    forall j | 0 <= j < |victims| ensures s.ledger.totalSize - SumSizes(s.trs, victims[..j]) + size > cfg.maxQueueSize {
      EvictAllSize(s.trs, s.ledger, victims[..j]);
    }
  }

  // ---------- accounting, step by step ----------

  lemma AscendingSnoc(xs: seq<nat>, x: nat)
    requires Ascending(xs) && forall y :: y in xs ==> y < x
    ensures Ascending(xs + [x])
  {
    assert forall i :: 0 <= i < |xs| ==> xs[i] in xs;
  }

  lemma EvictedAccounts(trs: map<nat, Tr>, l: Ledger, victims: seq<nat>, r: Ledger)
    requires Accounted(trs, l) && Without(trs, l, victims, r)
    requires forall id :: id in victims ==> id in l.transactions
    ensures Accounted(trs, r)
  {
    hide SumSizes, Ascending;
    assert forall x :: x in r.evicted ==> x in l.evicted || x in victims;
  }

  lemma EnqueueAccounts(trs: map<nat, Tr>, l: Ledger, tr: Tr)
    requires Accounted(trs, l)
    ensures Accounted(trs[l.counter + 1 := tr], Enqueue(l, tr.size))
  {
    var id := l.counter + 1;
    var trs' := trs[id := tr];
    SumSameSizes(trs, trs', l.transactions);
    SumAppend(trs', l.transactions, id);
    AscendingSnoc(l.transactions, id);
    hide Ascending, SumSizes;
  }

  lemma AppendAccounts(cfg: Config, s: State, endpoint: string, size: nat, created: int)
    requires Accounted(s.trs, s.ledger)
    ensures var r := Append(cfg, s, endpoint, size, created); Accounted(r.trs, r.ledger)
  {
    var victims := MakeRoomEffect(cfg, s.trs, s.ledger, size);
    hide MakeRoom, EvictionOrder, EvictAll, EvictedBefore, SumSizes, Ascending;
    var r := MakeRoom(cfg, s.trs, s.ledger, size);
    EvictedAccounts(s.trs, s.ledger, victims, r);
    EnqueueAccounts(s.trs, r, NewTr(size, endpoint, created));
  }

  lemma CommitAccounts(s: State, id: nat)
    requires Accounted(s.trs, s.ledger) && id in s.ledger.transactions
    ensures Accounted(s.trs, Commit(s, id).ledger)
  {
    RemoveFirstAscending(s.ledger.transactions, id);
    SumRemoveFirst(s.trs, s.ledger.transactions, id);
  }

  /** Sizes never change, so changing anything else about transactions keeps it accounted. */
  lemma SameSizesAccount(trs: map<nat, Tr>, trs': map<nat, Tr>, l: Ledger)
    requires Accounted(trs, l)
    requires forall id :: id in l.transactions ==> At(trs', id).size == At(trs, id).size
    ensures Accounted(trs', l)
  {
    SumSameSizes(trs, trs', l.transactions);
  }
}
