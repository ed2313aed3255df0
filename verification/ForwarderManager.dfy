/** transaction.py's classes, method by method, against the state machine. */
module ForwarderManager {
  import opened Prelude
  import opened Sorting
  import opened Forwarder
  import opened ForwarderLedger

  /** The outside world: the clock, and the HTTP client that `tr.flush()` hands a request to. */
  class Environment {
    const world: World
    var ticks: nat
    var sends: nat

    constructor (world: World)
      ensures this.world == world && ticks == 0 && sends == 0
    {
      this.world := world;
      ticks, sends := 0, 0;
    }

    method UtcNow() returns (now: int)
      modifies this`ticks
      ensures now == world.clock(old(ticks)) && ticks == old(ticks) + 1
    {
      now := world.clock(ticks);
      ticks := ticks + 1;
    }

    method Send() returns (raised: bool)
      modifies this`sends
      ensures raised == world.raises(old(sends)) && sends == old(sends) + 1
    {
      raised := world.raises(sends);
      sends := sends + 1;
    }
  }

  class Transaction {
    var id: Option<nat>
    var errorCount: nat
    var nextFlush: int
    const size: nat
    const endpoint: string
    ghost const created: int
    ghost var backoffAt: Option<int>

    constructor (size: nat, endpoint: string, created: int)
      ensures id == None && Value() == NewTr(size, endpoint, created)
    {
      this.size, this.endpoint, this.created := size, endpoint, created;
      id, errorCount, nextFlush, backoffAt := None, 0, created, None;
    }

    ghost function Value(): Tr
      reads this
    {
      Tr(size, endpoint, errorCount, nextFlush, backoffAt, created)
    }

    method SetId(newId: nat)
      requires id == None
      modifies this`id
      ensures id == Some(newId)
    {
      id := Some(newId);
    }

    method IncErrorCount()
      modifies this`errorCount
      ensures errorCount == old(errorCount) + 1
    {
      errorCount := errorCount + 1;
    }

    method ComputeNextFlush(config: Config, env: Environment)
      modifies this`nextFlush, this`backoffAt, env`ticks
      ensures Value() == Backoff(config, old(Value()), env.world.clock(old(env.ticks)))
      ensures env.ticks == old(env.ticks) + 1
    {
      var td := errorCount * 20 * SECOND;
      if td > config.maxWaitForReplay {
        td := config.maxWaitForReplay;
      }
      var now := env.UtcNow();
      nextFlush := WholeSecond(now + td);
      backoffAt := Some(now);
    }

    predicate TimeToFlush(now: int)
      reads this
    {
      nextFlush <= now
    }
  }

  class TransactionManager {
    const config: Config
    const env: Environment

    var transactions: seq<Transaction>
    var totalCount: int
    var totalSize: int
    var flushCount: nat
    var runningFlushes: int
    var transactionsReceived: nat
    var transactionsFlushed: nat
    var transactionsRejected: nat
    var counter: nat
    var trsToFlush: Option<seq<Transaction>>
    var lastFlush: int
    var flushTime: int
    var endpointsErrors: map<string, nat>
    var finishedFlushes: nat

    /** Every transaction that was given an id here, and its fields; the two lists by id. */
    ghost var registry: map<nat, Transaction>
    ghost var trs: map<nat, Tr>
    ghost var ids: seq<nat>
    ghost var queue: seq<nat>
    ghost var repr: set<Transaction>

    ghost var inFlight: set<nat>
    ghost var timers: nat
    ghost var evicted: seq<nat>
    ghost var history: History

    /** `list` holds the transactions with these ids. */
    ghost predicate Lists(list: seq<Transaction>, listed: seq<nat>)
      reads this`registry
    {
      && |list| == |listed|
      && forall i :: 0 <= i < |listed| ==> listed[i] in registry && registry[listed[i]] == list[i]
    }

    ghost predicate Registers()
      reads this`registry, this`repr, this`counter, repr`id
    {
      && (forall id :: id in registry ==> registry[id] in repr && registry[id].id == Some(id) && 1 <= id <= counter)
      && (forall tr :: tr in repr ==> tr.id.Some?)
    }

    ghost predicate Mirrors()
      reads this`registry, this`repr, this`trs, repr
    {
      && trs.Keys == registry.Keys
      && forall id :: id in registry ==> registry[id] in repr && registry[id].Value() == trs[id]
    }

    ghost predicate Valid()
      reads this`registry, this`trs, this`ids, this`queue, this`transactions, this`trsToFlush, this`repr, this`counter, repr
    {
      && Registers()
      && Mirrors()
      && Lists(transactions, ids)
      && Lists(if trsToFlush.Some? then trsToFlush.value else [], queue)
    }

    ghost predicate Known(tr: Transaction)
      reads this`registry, tr`id
    {
      tr.id.Some? && tr.id.value in registry && registry[tr.id.value] == tr
    }

    ghost function LedgerNow(): Ledger
      reads this`ids, this`totalCount, this`totalSize, this`transactionsReceived, this`transactionsFlushed
      reads this`transactionsRejected, this`counter, this`evicted
    {
      Ledger(ids, totalCount, totalSize, transactionsReceived, transactionsFlushed, transactionsRejected, counter, evicted)
    }

    ghost function CycleNow(): Cycle
      reads this`trsToFlush, this`queue, this`runningFlushes, this`flushTime, this`lastFlush
      reads this`endpointsErrors, this`finishedFlushes, this`inFlight
    {
      Cycle(if trsToFlush.Some? then Some(queue) else None, runningFlushes, flushTime, lastFlush,
            endpointsErrors, finishedFlushes, inFlight)
    }

    ghost function Model(): State
      reads this, env
    {
      State(trs, LedgerNow(), CycleNow(), history, flushCount, timers, env.ticks, env.sends)
    }

    constructor (config: Config, env: Environment)
      requires env.ticks == 0 && env.sends == 0
      modifies env
      ensures this.config == config && this.env == env && Valid() && repr == {}
      ensures Model() == Initial(env.world)
    {
      this.config, this.env := config, env;
      transactions, totalCount, totalSize, flushCount, runningFlushes := [], 0, 0, 0, 0;
      transactionsReceived, transactionsFlushed, transactionsRejected, counter := 0, 0, 0, 0;
      trsToFlush, flushTime, endpointsErrors, finishedFlushes := None, 0, map[], 0;
      registry, trs, ids, queue, repr := map[], map[], [], [], {};
      inFlight, timers, evicted, history := {}, 0, [], History([], 0, [], 0);
      new;
      lastFlush := env.UtcNow();
    }

    method GetTrId() returns (id: nat)
      modifies this`counter
      ensures id == counter == old(counter) + 1
    {
      counter := counter + 1;
      id := counter;
    }

    // ---------- completions ----------

    /** One request fewer in flight: the start of all three completions. */
    method LandRequest(ghost id: nat)
      modifies this`runningFlushes, this`finishedFlushes, this`inFlight
      ensures runningFlushes == old(runningFlushes) - 1 && finishedFlushes == old(finishedFlushes) + 1
      ensures inFlight == old(inFlight) - {id}
    {
      runningFlushes := runningFlushes - 1;
      finishedFlushes := finishedFlushes + 1;
      inFlight := inFlight - {id};
    }

    method TrError(tr: Transaction)
      requires Valid() && Known(tr) && trsToFlush.Some?
      modifies this`runningFlushes, this`finishedFlushes, this`endpointsErrors, this`trsToFlush, this`inFlight, this`history
      modifies this`trs, this`queue, env`ticks, repr`errorCount, repr`nextFlush, repr`backoffAt
      ensures Valid() && trsToFlush.Some?
      ensures Model() == Forwarder.TrError(config, env.world, old(Model()), tr.id.value)
    {
      hide Registers, Mirrors, Lists, Charge, Trip;
      FieldsOf(tr);
      ChargeError(tr);
      if endpointsErrors[tr.endpoint] == config.maxEndpointErrors {
        SkipQueued(tr.endpoint);
      }
    }

    /** The accounting half of `tr_error`. */
    method ChargeError(tr: Transaction)
      requires Valid() && Known(tr)
      modifies this`runningFlushes, this`finishedFlushes, this`endpointsErrors, this`inFlight, this`history
      modifies this`trs, env`ticks, tr`errorCount, tr`nextFlush, tr`backoffAt
      ensures Valid() && tr.endpoint in endpointsErrors
      ensures Model() == Charge(config, env.world, old(Model()), tr.id.value)
    {
      hide Registers, Mirrors, Lists, LedgerNow, Backoff;
      FieldsOf(tr);
      PutOff(tr);
      CountError(tr.id.value, tr.endpoint);
    }

    /** `tr` has failed once more; it is put off accordingly. */
    method PutOff(tr: Transaction)
      requires Registers() && Mirrors() && Known(tr)
      modifies this`trs, this`history, env`ticks, tr`errorCount, tr`nextFlush, tr`backoffAt
      ensures Mirrors() && env.ticks == old(env.ticks) + 1
      ensures var id, now := tr.id.value, env.world.clock(old(env.ticks));
        var failed := At(old(trs), id).(errors := At(old(trs), id).errors + 1);
        && failed.endpoint == tr.endpoint
        && trs == old(trs)[id := Backoff(config, failed, now)]
        && history == old(history).(failures := old(history).failures + [Failure(id, failed.errors, now)])
    {
      FieldsOf(tr);
      hide Backoff;
      ghost var now := env.world.clock(env.ticks);
      tr.IncErrorCount();
      tr.ComputeNextFlush(config, env);
      OneChanged(tr);
      history := history.(failures := history.failures + [Failure(tr.id.value, tr.errorCount, now)]);
    }

    method CountError(ghost id: nat, endpoint: string)
      modifies this`runningFlushes, this`finishedFlushes, this`inFlight, this`endpointsErrors
      ensures runningFlushes == old(runningFlushes) - 1 && finishedFlushes == old(finishedFlushes) + 1
      ensures inFlight == old(inFlight) - {id}
      ensures endpointsErrors == old(endpointsErrors)[endpoint := EndpointErrors(old(CycleNow()), endpoint) + 1]
    {
      LandRequest(id);
      var errors := if endpoint in endpointsErrors then endpointsErrors[endpoint] else 0;
      endpointsErrors := endpointsErrors[endpoint := errors + 1];
    }

    /** Record the new fields of a transaction in `trs`. */
    ghost method OneChanged(tr: Transaction)
      requires Registers() && Known(tr) && trs.Keys == registry.Keys
      requires forall id :: id in registry && registry[id] != tr ==> registry[id].Value() == trs[id]
      modifies this`trs
      ensures Mirrors() && trs == old(trs)[tr.id.value := tr.Value()]
    {
      trs := trs[tr.id.value := tr.Value()];
    }

    lemma ListedIsKnown(list: seq<Transaction>, listed: seq<nat>, i: nat)
      requires Registers() && Lists(list, listed) && i < |list|
      ensures Known(list[i]) && list[i].id.value == listed[i] && list[i] in repr
    {
    }

    lemma FieldsOf(tr: Transaction)
      requires Mirrors() && Known(tr)
      ensures At(trs, tr.id.value) == tr.Value() && tr in repr
    {
    }

    /** `compute_next_flush` for a registered transaction. */
    method Recompute(tr: Transaction)
      requires Registers() && Mirrors() && Known(tr)
      modifies this`trs, env`ticks, tr`nextFlush, tr`backoffAt
      ensures Mirrors() && env.ticks == old(env.ticks) + 1
      ensures trs == old(trs)[tr.id.value := Backoff(config, At(old(trs), tr.id.value), env.world.clock(old(env.ticks)))]
    {
      FieldsOf(tr);
      tr.ComputeNextFlush(config, env);
      OneChanged(tr);
    }

    /** The endpoint is failing: its transactions leave the current flush. */
    method SkipQueued(endpoint: string)
      requires Valid() && trsToFlush.Some?
      modifies this`trsToFlush, this`queue, this`trs, env`ticks, repr`nextFlush, repr`backoffAt
      ensures Valid() && trsToFlush.Some?
      ensures Model() == Trip(config, env.world, old(Model()), endpoint)
    {
      hide Mirrors, Registers, Lists, LedgerNow, SkipEndpoint;
      ghost var kept;
      trsToFlush, kept := FilterQueue(endpoint);
      queue := kept;
    }

    method FilterQueue(endpoint: string) returns (newTrsToFlush: Option<seq<Transaction>>, ghost kept: seq<nat>)
      requires Registers() && Mirrors() && trsToFlush.Some? && Lists(trsToFlush.value, queue)
      modifies this`trs, env`ticks, repr`nextFlush, repr`backoffAt
      ensures Mirrors() && newTrsToFlush.Some? && Lists(newTrsToFlush.value, kept)
      ensures Skipped(trs, env.ticks, kept) ==
              SkipEndpoint(config, env.world, old(trs), old(env.ticks), queue, endpoint)
    {
      hide Backoff, Mirrors, Registers, Lists, At;
      ghost var trs0, ticks0 := trs, env.ticks;
      var flushing := trsToFlush.value;
      var keeping: seq<Transaction> := [];
      kept := [];
      EmptyLists();
      SameLength(flushing, queue);
      for i := 0 to |flushing|
        invariant Mirrors() && Lists(keeping, kept)
        invariant SkipEndpoint(config, env.world, trs0, ticks0, queue[..i], endpoint) == Skipped(trs, env.ticks, kept)
      {
        assert queue[..i + 1][..i] == queue[..i];
        ListedIsKnown(flushing, queue, i);
        keeping, kept := SkipOrKeep(flushing[i], endpoint, keeping, kept);
      }
      assert queue[..|flushing|] == queue;
      newTrsToFlush := Some(keeping);
    }

    lemma EmptyLists()
      ensures Lists([], [])
    {
    }

    lemma SameLength(list: seq<Transaction>, listed: seq<nat>)
      requires Lists(list, listed)
      ensures |list| == |listed|
    {
    }

    /** The body of that loop. */
    method SkipOrKeep(transaction: Transaction, endpoint: string, kept: seq<Transaction>, ghost keptIds: seq<nat>)
      returns (kept': seq<Transaction>, ghost keptIds': seq<nat>)
      requires Registers() && Mirrors() && Known(transaction) && Lists(kept, keptIds)
      modifies this`trs, env`ticks, transaction`nextFlush, transaction`backoffAt
      ensures Mirrors() && Lists(kept', keptIds')
      ensures var id := transaction.id.value;
        if At(old(trs), id).endpoint != endpoint
        then trs == old(trs) && env.ticks == old(env.ticks) && keptIds' == keptIds + [id]
        else && trs == old(trs)[id := Backoff(config, At(old(trs), id), env.world.clock(old(env.ticks)))]
             && env.ticks == old(env.ticks) + 1 && keptIds' == keptIds
    {
      hide Backoff, Mirrors, Registers, At;
      kept', keptIds' := kept, keptIds;
      FieldsOf(transaction);
      if transaction.endpoint != endpoint {
        kept', keptIds' := kept + [transaction], keptIds + [transaction.id.value];
      } else {
        Recompute(transaction);
      }
    }

    /** `_transactions.remove(tr)`, by identity, is removal by id. */
    lemma {:induction false} RemoveListed(list: seq<Transaction>, listed: seq<nat>, tr: Transaction)
      requires Registers() && Known(tr) && Lists(list, listed)
      ensures Lists(RemoveFirst(list, tr), RemoveFirst(listed, tr.id.value))
      ensures tr in list <==> tr.id.value in listed
      decreases |list|
    {
      if list != [] {
        RemoveListed(list[1..], listed[1..], tr);
        assert list == [list[0]] + list[1..] && listed == [listed[0]] + listed[1..];
      }
    }

    /** `_transactions.remove(tr)` where it is listed. */
    method Unlist(tr: Transaction)
      requires Valid() && Known(tr)
      modifies this`transactions, this`ids
      ensures Valid() && ids == RemoveFirst(old(ids), tr.id.value)
    {
      hide Registers, Mirrors, Lists, RemoveFirst;
      RemoveListed(transactions, ids, tr);
      transactions, ids := RemoveFirst(transactions, tr), RemoveFirst(ids, tr.id.value);
    }

    /** Take a committed transaction off the queue; false when `remove` raised. */
    method Dequeue(tr: Transaction) returns (normal: bool)
      requires Valid() && Known(tr)
      modifies this`transactions, this`ids, this`totalCount, this`totalSize, this`transactionsFlushed
      ensures Valid() && normal == (tr.id.value in old(ids))
      ensures Model() == if normal then Commit(old(Model()), tr.id.value) else old(Model())
    {
      hide Valid, Registers, Mirrors, Lists, RemoveFirst, CycleNow, At;
      Facts(tr);
      normal := tr in transactions;
      if normal {
        Unlist(tr);
        CountCommitted(tr);
      }
    }

    method CountCommitted(tr: Transaction)
      modifies this`totalCount, this`totalSize, this`transactionsFlushed
      ensures totalCount == old(totalCount) - 1 && totalSize == old(totalSize) - tr.size
      ensures transactionsFlushed == old(transactionsFlushed) + 1
    {
      totalCount := totalCount - 1;
      totalSize := totalSize - tr.size;
      transactionsFlushed := transactionsFlushed + 1;
    }

    lemma Facts(tr: Transaction)
      requires Valid() && Known(tr)
      ensures At(trs, tr.id.value).size == tr.size && (tr in transactions <==> tr.id.value in ids)
    {
      FieldsOf(tr);
      RemoveListed(transactions, ids, tr);
    }

    method TrSuccess(tr: Transaction) returns (normal: bool)
      requires Valid() && Known(tr)
      modifies this`runningFlushes, this`finishedFlushes, this`inFlight
      modifies this`transactions, this`ids, this`totalCount, this`totalSize, this`transactionsFlushed
      ensures Valid()
      ensures (Model(), normal) == Complete(config, env.world, old(Model()), tr.id.value, Success)
    {
      hide Registers, Mirrors, Commit;
      LandRequest(tr.id.value);
      normal := Dequeue(tr);
    }

    method TrErrorRejectRequest(tr: Transaction) returns (normal: bool)
      requires Valid() && Known(tr)
      modifies this`runningFlushes, this`finishedFlushes, this`inFlight, this`trs, tr`errorCount
      modifies this`transactions, this`ids, this`totalCount, this`totalSize, this`transactionsFlushed, this`transactionsRejected
      ensures Valid()
      ensures (Model(), normal) == Complete(config, env.world, old(Model()), tr.id.value, TooLarge)
    {
      hide Registers, Mirrors, Commit, Bump, Landed;
      LandRejected(tr);
      normal := Dequeue(tr);
      if normal {
        transactionsRejected := transactionsRejected + 1;
      }
    }

    method LandRejected(tr: Transaction)
      requires Valid() && Known(tr)
      modifies this`runningFlushes, this`finishedFlushes, this`inFlight, this`trs, tr`errorCount
      ensures Valid() && Model() == Bump(Landed(old(Model()), tr.id.value), tr.id.value)
    {
      hide Registers, Mirrors, Lists;
      ChargeRejected(tr);
      LandRequest(tr.id.value);
    }

    method ChargeRejected(tr: Transaction)
      requires Registers() && Mirrors() && Known(tr)
      modifies this`trs, tr`errorCount
      ensures Mirrors()
      ensures trs == old(trs)[tr.id.value := At(old(trs), tr.id.value).(errors := At(old(trs), tr.id.value).errors + 1)]
    {
      FieldsOf(tr);
      tr.IncErrorCount();
      OneChanged(tr);
    }

    // ---------- flush_next ----------

    /** Pop the transaction at the end of the current flush and hand it to the HTTP client. */
    method PopAndSend(ghost checked: int, ghost paced: int)
      requires Valid() && trsToFlush.Some? && |trsToFlush.value| > 0
      modifies this`runningFlushes, this`finishedFlushes, this`endpointsErrors, this`trsToFlush, this`inFlight, this`history
      modifies this`trs, this`queue, this`lastFlush, env`ticks, env`sends
      modifies repr`errorCount, repr`nextFlush, repr`backoffAt
      ensures Valid() && trsToFlush.Some?
      ensures Model() == Launch(config, env.world, old(Model()), checked, paced)
    {
      hide Mirrors, Forwarder.TrError;
      var tr := Pop(checked, paced);
      var raised := env.Send();
      if raised {
        TrError(tr);
      }
    }

    method Pop(ghost checked: int, ghost paced: int) returns (tr: Transaction)
      requires Valid() && trsToFlush.Some? && |trsToFlush.value| > 0
      modifies this`runningFlushes, this`trsToFlush, this`inFlight, this`history, this`queue, this`lastFlush, env`ticks
      ensures Valid() && trsToFlush.Some? && Known(tr) && tr.id.value == old(queue)[|old(queue)| - 1]
      ensures Model().(sends := env.sends + 1) == Launched(env.world, old(Model()), checked, paced)
    {
      var n := |trsToFlush.value| - 1;
      tr := trsToFlush.value[n];
      ListedIsKnown(trsToFlush.value, queue, n);
      FieldsOf(tr);
      hide Registers, Mirrors;
      trsToFlush, queue := Some(trsToFlush.value[..n]), queue[..n];
      CountLaunch(tr.id.value, tr.errorCount, checked, paced);
    }

    method CountLaunch(ghost id: nat, ghost errors: nat, ghost checked: int, ghost paced: int)
      modifies this`runningFlushes, this`inFlight, this`history, this`lastFlush, env`ticks
      ensures runningFlushes == old(runningFlushes) + 1 && inFlight == old(inFlight) + {id}
      ensures lastFlush == env.world.clock(old(env.ticks)) && env.ticks == old(env.ticks) + 1
      ensures history == old(history).(log := old(history).log + [Dispatch(id, errors, checked, paced, lastFlush)])
    {
      runningFlushes, inFlight := runningFlushes + 1, inFlight + {id};
      lastFlush := env.UtcNow();
      history := history.(log := history.log + [Dispatch(id, errors, checked, paced, lastFlush)]);
    }

    method FlushNext()
      requires Valid()
      modifies this`runningFlushes, this`finishedFlushes, this`endpointsErrors, this`trsToFlush, this`inFlight, this`history
      modifies this`trs, this`queue, this`lastFlush, this`timers, env`ticks, env`sends
      modifies repr`errorCount, repr`nextFlush, repr`backoffAt
      ensures Valid()
      ensures Model() == Forwarder.FlushNext(config, env.world, old(Model()))
      decreases |Queue(Model().cycle)|
    {
      hide Valid, Registers, Mirrors, Lists, LedgerNow, Launch, Settle, Schedule;
      ghost var s := Model();
      SameQueue();
      if trsToFlush.Some? && |trsToFlush.value| > 0 {
        var now := env.UtcNow();
        ghost var checked := now;
        if now - flushTime >= MAX_FLUSH_DURATION {
          DropQueue();
          FlushNext();
          return;
        }
        now := env.UtcNow();
        var delay := lastFlush + config.throttlingDelay - now;
        if delay <= 0 && runningFlushes < config.maxParallelism {
          PopAndSend(checked, now);
          FlushNext();
        } else if runningFlushes < config.maxParallelism {
          AddTimeout();
        }
      } else if runningFlushes == 0 {
        EndFlush();
      }
    }

    lemma SameQueue()
      requires Valid()
      ensures trsToFlush.Some? ==> |trsToFlush.value| == |queue|
    {
    }

    /** Stop dispatching: the flush has been running for too long. */
    method DropQueue()
      requires Valid()
      modifies this`trsToFlush, this`queue
      ensures Valid() && Model() == CutOff(old(Model()))
    {
      hide Registers, Mirrors;
      trsToFlush, queue := Some([]), [];
    }

    method EndFlush()
      requires Valid()
      modifies this`trsToFlush, this`queue
      ensures Valid() && Model() == Settle(old(Model()))
    {
      hide Registers, Mirrors;
      trsToFlush, queue := None, [];
    }

    /** Schedule another `flush_next`, if the loop is running. */
    method AddTimeout()
      modifies this`timers
      ensures Model() == Schedule(config, old(Model()))
    {
      hide LedgerNow, CycleNow;
      if config.ioloopRunning {
        timers := timers + 1;
      }
    }

    // ---------- append ----------

    /** The transactions at positions `order` have the ids at positions `order`. */
    lemma PickLists(list: seq<Transaction>, listed: seq<nat>, order: seq<nat>)
      requires Lists(list, listed) && forall i :: 0 <= i < |order| ==> order[i] < |list|
      ensures Lists(Pick(list, order), Pick(listed, order))
    {
    }

    /** Candidates for eviction: `sorted(..., key=attrgetter('_next_flush'), reverse=True)`. */
    method SortedForEviction() returns (candidates: seq<Transaction>)
      requires Valid()
      ensures Lists(candidates, EvictionOrder(trs, ids))
    {
      ghost var fields, listed := trs, ids;
      var keys: seq<(int, int)> := [];
      for i := 0 to |transactions|
        invariant keys == seq(i, k requires 0 <= k < i <= |listed| => (-At(fields, listed[k]).nextFlush, 0))
      {
        ListedIsKnown(transactions, ids, i);
        FieldsOf(transactions[i]);
        keys := keys + [(-transactions[i].nextFlush, 0)];
      }
      assert keys == seq(|ids|, k requires 0 <= k < |listed| => (-At(fields, listed[k]).nextFlush, 0));
      candidates := Pick(transactions, SortOrder(keys));
      PickLists(transactions, ids, SortOrder(keys));
    }

    method EvictTransaction(tr: Transaction)
      requires Valid() && Known(tr)
      modifies this`transactions, this`ids, this`totalCount, this`totalSize, this`evicted
      ensures Valid() && LedgerNow() == EvictOne(trs, old(LedgerNow()), tr.id.value)
    {
      hide Valid, Registers, Mirrors, Lists, RemoveFirst, At;
      Facts(tr);
      Unlist(tr);
      totalCount := totalCount - 1;
      totalSize := totalSize - tr.size;
      evicted := evicted + [tr.id.value];
    }

    lemma MakeRoomIgnoresCounter(cfg: Config, trs: map<nat, Tr>, l: Ledger, size: nat, n: nat)
      ensures MakeRoom(cfg, trs, l.(counter := n), size) == MakeRoom(cfg, trs, l, size).(counter := n)
      ensures MakeRoom(cfg, trs, l, size).counter == l.counter
    {
      hide EvictionOrder, Evict;
      EvictIgnoresCounter(cfg, trs, l, EvictionOrder(trs, l.transactions), size, n);
    }

    method EvictFor(size: nat)
      requires Valid()
      modifies this`transactions, this`ids, this`totalCount, this`totalSize, this`evicted
      ensures Valid() && LedgerNow() == MakeRoom(config, trs, old(LedgerNow()), size)
    {
      hide Registers, Mirrors, EvictionOrder, EvictOne;
      if totalSize + size > config.maxQueueSize {
        ghost var l, order := LedgerNow(), EvictionOrder(trs, ids);
        var newTrs := SortedForEviction();
        for i := 0 to |newTrs|
          invariant Valid() && LedgerNow() == Evict(config, trs, l, order[..i], size)
        {
          assert order[..i + 1][..i] == order[..i];
          ListedIsKnown(newTrs, order, i);
          if totalSize + size > config.maxQueueSize {
            EvictTransaction(newTrs[i]);
          }
        }
        assert order[..|newTrs|] == order;
      }
    }

    method Append(tr: Transaction)
      requires Valid() && tr.id == None
      modifies this`transactions, this`ids, this`totalCount, this`totalSize, this`transactionsReceived, this`counter, this`evicted
      modifies this`registry, this`trs, this`repr, tr`id
      ensures Valid() && repr == old(repr) + {tr}
      ensures Model() == AppendTr(config, old(Model()), old(tr.Value()))
    {
      hide Valid, Registers, Mirrors, Lists, CycleNow, EvictionOrder, Evict, MakeRoom, Enqueue;
      ghost var l := LedgerNow();
      AssignId(tr);
      EvictFor(tr.size);
      MakeRoomIgnoresCounter(config, trs, l, tr.size, counter);
      Enlist(tr);
    }

    method AssignId(tr: Transaction)
      requires Valid() && tr.id == None
      modifies this`counter, tr`id
      ensures Valid() && counter == old(counter) + 1 && tr.id == Some(counter) && counter !in registry && tr !in repr
    {
      hide Mirrors, Lists;
      var id := GetTrId();
      tr.SetId(id);
    }

    /** The last part of `append`. */
    method Enlist(tr: Transaction)
      requires Valid() && tr.id == Some(counter) && counter > 0 && counter !in registry && tr !in repr
      modifies this`transactions, this`ids, this`totalCount, this`totalSize, this`transactionsReceived
      modifies this`registry, this`trs, this`repr
      ensures Valid() && repr == old(repr) + {tr}
      ensures trs == old(trs)[counter := tr.Value()]
      ensures LedgerNow() == Enqueue(old(LedgerNow()).(counter := counter - 1), tr.size)
    {
      hide Registers, Mirrors;
      Register(tr);
      CountReceived(tr);
    }

    method CountReceived(tr: Transaction)
      modifies this`transactions, this`ids, this`totalCount, this`totalSize, this`transactionsReceived
      ensures transactions == old(transactions) + [tr] && ids == old(ids) + [counter]
      ensures totalCount == old(totalCount) + 1 && totalSize == old(totalSize) + tr.size
      ensures transactionsReceived == old(transactionsReceived) + 1
    {
      transactions, ids := transactions + [tr], ids + [counter];
      totalCount := totalCount + 1;
      transactionsReceived := transactionsReceived + 1;
      totalSize := totalSize + tr.size;
    }

    ghost method Register(tr: Transaction)
      requires Valid() && tr.id == Some(counter) && counter > 0 && counter !in registry && tr !in repr
      modifies this`registry, this`trs, this`repr
      ensures Valid() && repr == old(repr) + {tr} && Known(tr)
      ensures trs == old(trs)[counter := tr.Value()]
    {
      registry, repr, trs := registry[counter := tr], repr + {tr}, trs[counter := tr.Value()];
      assert Registers() && Lists(transactions, ids);
      assert Mirrors();
    }

    // ---------- flush ----------

    /** `sorted(to_flush, key=lambda tr: (- tr._error_count, tr._id))`. */
    method SortedForFlush(toFlush: seq<Transaction>, ghost due: seq<nat>) returns (sorted: seq<Transaction>)
      requires Valid() && Lists(toFlush, due)
      ensures Lists(sorted, FlushOrder(trs, due))
    {
      ghost var fields := trs;
      var keys: seq<(int, int)> := [];
      for i := 0 to |toFlush|
        invariant keys == seq(i, k requires 0 <= k < i <= |due| => (0 - At(fields, due[k]).errors, due[k]))
      {
        ListedIsKnown(toFlush, due, i);
        FieldsOf(toFlush[i]);
        keys := keys + [(-(toFlush[i].errorCount as int), toFlush[i].id.value)];
      }
      assert keys == seq(|due|, k requires 0 <= k < |due| => (0 - At(fields, due[k]).errors, due[k]));
      sorted := Pick(toFlush, SortOrder(keys));
      PickLists(toFlush, due, SortOrder(keys));
    }

    method SelectDue(now: int) returns (toFlush: seq<Transaction>)
      requires Valid()
      ensures Lists(toFlush, Due(trs, ids, now))
    {
      toFlush := [];
      for i := 0 to |transactions|
        invariant Lists(toFlush, Due(trs, ids[..i], now))
      {
        assert ids[..i + 1][..i] == ids[..i];
        ListedIsKnown(transactions, ids, i);
        FieldsOf(transactions[i]);
        if transactions[i].TimeToFlush(now) {
          toFlush := toFlush + [transactions[i]];
        }
      }
      assert ids[..|transactions|] == ids;
    }

    method Flush()
      requires Valid()
      modifies this`runningFlushes, this`finishedFlushes, this`endpointsErrors, this`trsToFlush, this`inFlight, this`history
      modifies this`trs, this`queue, this`lastFlush, this`timers, this`flushTime, this`flushCount, env`ticks, env`sends
      modifies repr`errorCount, repr`nextFlush, repr`backoffAt
      ensures Valid()
      ensures Model() == Forwarder.Flush(config, env.world, old(Model()))
    {
      hide Valid, Registers, Mirrors, Lists, FlushOrder, Due, StartCycle, Forwarder.FlushNext;
      if trsToFlush.Some? {
        return;
      }
      ghost var s := Model();
      var now := env.UtcNow();
      var toFlush := SelectDue(now);
      SameLength(toFlush, Due(trs, ids, now));
      if |toFlush| > 0 {
        Start(toFlush, Due(trs, ids, now));
        FlushNext();
      }
      flushCount := flushCount + 1;
    }

    method Start(toFlush: seq<Transaction>, ghost due: seq<nat>)
      requires Valid() && Lists(toFlush, due)
      modifies this`finishedFlushes, this`endpointsErrors, this`trsToFlush, this`queue, this`history, this`flushTime, env`ticks
      ensures Valid()
      ensures Model() == StartCycle(env.world, old(Model()), due)
    {
      hide Registers, Mirrors, Lists, LedgerNow, FlushOrder;
      var sorted := SortedForFlush(toFlush, due);
      OpenCycle(sorted, FlushOrder(trs, due));
    }

    method OpenCycle(sorted: seq<Transaction>, ghost order: seq<nat>)
      modifies this`finishedFlushes, this`endpointsErrors, this`trsToFlush, this`queue, this`history, this`flushTime, env`ticks
      ensures endpointsErrors == map[] && finishedFlushes == 0 && trsToFlush == Some(sorted) && queue == order
      ensures history == old(history).(first := |old(history).log|, firstFailure := |old(history).failures|)
      ensures flushTime == env.world.clock(old(env.ticks)) && env.ticks == old(env.ticks) + 1
    {
      endpointsErrors := map[];
      finishedFlushes := 0;
      trsToFlush, queue := Some(sorted), order;
      history := history.(first := |history.log|, firstFailure := |history.failures|);
      flushTime := env.UtcNow();
    }

    /** The callback given to `add_timeout`. */
    method OnTimer()
      requires Valid() && timers > 0
      modifies this`runningFlushes, this`finishedFlushes, this`endpointsErrors, this`trsToFlush, this`inFlight, this`history
      modifies this`trs, this`queue, this`lastFlush, this`timers, env`ticks, env`sends
      modifies repr`errorCount, repr`nextFlush, repr`backoffAt
      ensures Valid()
      ensures Model() == Step(config, env.world, old(Model()), TimerFired)
    {
      hide Valid, Registers, Mirrors, Lists, LedgerNow, CycleNow, Forwarder.FlushNext;
      timers := timers - 1;
      FlushNext();
    }
  }
}
