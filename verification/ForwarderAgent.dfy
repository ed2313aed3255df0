/** ddagent.py's AgentTransaction: how payloads enter the queue and responses leave it. */
module ForwarderAgent {
  import opened Prelude
  import opened Forwarder
  import opened ForwarderLedger
  import opened ForwarderInvariants
  import opened ForwarderSteps
  import opened ForwarderManager

  datatype Response = Response(error: bool, code: int)

  const RESPONSES_TO_REJECT: set<int> := {413, 400}

  function OutcomeOf(response: Response): Outcome {
    if response.error then (if response.code in RESPONSES_TO_REJECT then TooLarge else Failed) else Success
  }

  /** No error is a success; of the errors, 413 and 400 reject the request for good and all
      others are tried again. */
  lemma OutcomeMeaning(response: Response)
    ensures OutcomeOf(response).Success? <==> !response.error
    ensures OutcomeOf(response).TooLarge? <==> response.error && (response.code == 413 || response.code == 400)
  {
    assert response.code in RESPONSES_TO_REJECT <==> response.code == 413 || response.code == 400;
  }

  /** The manager's model satisfies the invariant of every run. */
  ghost predicate Sound(manager: TransactionManager)
    reads manager, manager.env, manager.repr
  {
    manager.Valid() && Nondecreasing(manager.env.world) && Inv(manager.config, manager.env.world, manager.Model())
  }

  /** The completion that a response asks for; false when it raised. */
  method CompleteResponse(manager: TransactionManager, tr: Transaction, response: Response) returns (normal: bool)
    requires manager.Valid() && manager.Known(tr)
    requires OutcomeOf(response).Failed? ==> manager.trsToFlush.Some?
    modifies manager, manager.env, manager.repr
    ensures manager.Valid() && manager.repr == old(manager.repr)
    ensures (manager.Model(), normal) ==
            Complete(manager.config, manager.env.world, old(manager.Model()), old(tr.id.value), OutcomeOf(response))
  {
    hide *;
    KnownHere(manager, tr);
    Classified(response);
    FailureCompletes(manager.config, manager.env.world, manager.Model(), tr.id.value);
    normal := true;
    if response.error {
      if response.code in RESPONSES_TO_REJECT {
        normal := manager.TrErrorRejectRequest(tr);
      } else {
        manager.TrError(tr);
      }
    } else {
      normal := manager.TrSuccess(tr);
    }
  }

  lemma KnownHere(manager: TransactionManager, tr: Transaction)
    requires manager.Valid() && manager.Known(tr)
    ensures tr.id.Some? && tr in manager.repr
  {
  }

  lemma Classified(response: Response)
    ensures OutcomeOf(response) ==
            if response.error then (if response.code in RESPONSES_TO_REJECT then TooLarge else Failed) else Success
  {
  }

  lemma FailureCompletes(cfg: Config, w: World, s: State, id: nat)
    ensures Complete(cfg, w, s, id, Failed) == (TrError(cfg, w, s, id), true)
  {
  }

  /** `on_response`: the completion, then `flush_next` unless the completion raised. */
  method OnResponse(manager: TransactionManager, tr: Transaction, response: Response)
    requires Sound(manager) && manager.Known(tr) && tr.id.value in manager.inFlight
    modifies manager, manager.env, manager.repr
    ensures Sound(manager) && manager.repr == old(manager.repr)
    ensures manager.Model() == Step(manager.config, manager.env.world, old(manager.Model()),
                                    Responded(old(tr.id.value), OutcomeOf(response)))
  {
    hide *;
    UnfoldSound(manager);
    KnownHere(manager, tr);
    ghost var config, w, s, id := manager.config, manager.env.world, manager.Model(), tr.id.value;
    InFlightMeansOpen(manager, id);
    StepKeeps(config, w, s, Responded(id, OutcomeOf(response)));
    RespondIsStep(config, w, s, id, OutcomeOf(response));
    CompleteAndFlush(manager, tr, response);
    FoldSound(manager);
  }

  method CompleteAndFlush(manager: TransactionManager, tr: Transaction, response: Response)
    requires manager.Valid() && manager.Known(tr)
    requires OutcomeOf(response).Failed? ==> manager.trsToFlush.Some?
    modifies manager, manager.env, manager.repr
    ensures manager.Valid() && manager.repr == old(manager.repr)
    ensures manager.Model() == Respond(manager.config, manager.env.world, old(manager.Model()), old(tr.id.value), OutcomeOf(response))
  {
    hide *;
    KnownHere(manager, tr);
    RespondAfter(manager.config, manager.env.world, manager.Model(), tr.id.value, OutcomeOf(response));
    var normal := CompleteResponse(manager, tr, response);
    if normal {
      manager.FlushNext();
    }
  }

  lemma RespondAfter(cfg: Config, w: World, s: State, id: nat, outcome: Outcome)
    ensures var c := Complete(cfg, w, s, id, outcome);
      Respond(cfg, w, s, id, outcome) == if c.1 then FlushNext(cfg, w, c.0) else c.0
  {
  }

  lemma RespondIsStep(cfg: Config, w: World, s: State, id: nat, outcome: Outcome)
    requires Enabled(s, Responded(id, outcome))
    ensures Step(cfg, w, s, Responded(id, outcome)) == Respond(cfg, w, s, id, outcome)
  {
  }

  lemma InFlightMeansOpen(manager: TransactionManager, id: nat)
    requires Inv(manager.config, manager.env.world, manager.Model()) && id in manager.inFlight
    ensures manager.trsToFlush.Some? && forall outcome :: Enabled(manager.Model(), Responded(id, outcome))
  {
  }

  lemma UnfoldSound(manager: TransactionManager)
    requires Sound(manager)
    ensures manager.Valid() && Nondecreasing(manager.env.world)
    ensures Inv(manager.config, manager.env.world, manager.Model())
  {
  }

  lemma FoldSound(manager: TransactionManager)
    requires manager.Valid() && Nondecreasing(manager.env.world)
    requires Inv(manager.config, manager.env.world, manager.Model())
    ensures Sound(manager)
  {
  }

  /** Endpoints with their API keys, in the order the dictionary yields them. */
  type Endpoints = seq<(string, seq<string>)>

  function KeyEvents(endpoint: string, keys: seq<string>, size: nat, created: int): seq<Event>
    decreases |keys|
  {
    if keys == [] then []
    else KeyEvents(endpoint, keys[..|keys| - 1], size, created) + [Appended(endpoint, size, created)]
  }

  /** One transaction per endpoint and key. */
  function Copies(endpoints: Endpoints, size: nat, created: int): seq<Event>
    decreases |endpoints|
  {
    if endpoints == [] then []
    else
      var n := |endpoints| - 1;
      Copies(endpoints[..n], size, created) + KeyEvents(endpoints[n].0, endpoints[n].1, size, created)
  }

  function KeyCount(endpoints: Endpoints): nat
    decreases |endpoints|
  {
    if endpoints == [] then 0 else KeyCount(endpoints[..|endpoints| - 1]) + |endpoints[|endpoints| - 1].1|
  }

  lemma {:induction false} KeyEventsAre(endpoint: string, keys: seq<string>, size: nat, created: int)
    ensures |KeyEvents(endpoint, keys, size, created)| == |keys|
    ensures forall e :: e in KeyEvents(endpoint, keys, size, created) ==> e == Appended(endpoint, size, created)
    decreases |keys|
  {
    if keys != [] { KeyEventsAre(endpoint, keys[..|keys| - 1], size, created); }
  }

  lemma {:induction false} CopiesAre(endpoints: Endpoints, size: nat, created: int)
    ensures |Copies(endpoints, size, created)| == KeyCount(endpoints)
    ensures forall e :: e in Copies(endpoints, size, created) ==> e.Appended? && e.size == size && e.created == created
    decreases |endpoints|
  {
    if endpoints != [] {
      var n := |endpoints| - 1;
      CopiesAre(endpoints[..n], size, created);
      KeyEventsAre(endpoints[n].0, endpoints[n].1, size, created);
    }
  }

  lemma AppendNumbers(cfg: Config, s: State, endpoint: string, size: nat, created: int)
    ensures var r := Append(cfg, s, endpoint, size, created); var id := s.ledger.counter + 1;
      r.ledger.counter == id && r.trs == s.trs[id := NewTr(size, endpoint, created)]
  {
    EvictIgnoresCounter(cfg, s.trs, s.ledger, EvictionOrder(s.trs, s.ledger.transactions), size, 0);
  }

  lemma {:induction false} AppendsNumber(cfg: Config, w: World, s: State, es: seq<Event>)
    requires forall e :: e in es ==> e.Appended?
    ensures var r := Run(cfg, w, s, es);
      && r.ledger.counter == s.ledger.counter + |es|
      && (forall k :: 0 <= k < |es| ==>
            At(r.trs, s.ledger.counter + 1 + k) == NewTr(es[k].size, es[k].endpoint, es[k].created))
    decreases |es|
  {
    hide Append;
    if es != [] {
      var n := |es| - 1;
      var e := es[n];
      assert e in es && forall x :: x in es[..n] ==> x in es;
      AppendsNumber(cfg, w, s, es[..n]);
      var before := Run(cfg, w, s, es[..n]);
      AppendNumbers(cfg, before, e.endpoint, e.size, e.created);
      assert Run(cfg, w, s, es) == Append(cfg, before, e.endpoint, e.size, e.created);
      hide Run;
      assert forall k :: 0 <= k < n ==> es[..n][k] == es[k];
    }
  }

  /** Where the copy for the j-th key of the i-th endpoint stands. */
  lemma {:induction false} CopyAt(endpoints: Endpoints, size: nat, created: int, i: nat, j: nat)
    requires i < |endpoints| && j < |endpoints[i].1|
    ensures KeyCount(endpoints[..i]) + j < |Copies(endpoints, size, created)|
    ensures Copies(endpoints, size, created)[KeyCount(endpoints[..i]) + j] == Appended(endpoints[i].0, size, created)
    decreases |endpoints|
  {
    var n := |endpoints| - 1;
    var last := KeyEvents(endpoints[n].0, endpoints[n].1, size, created);
    CopiesAre(endpoints[..n], size, created);
    KeyEventsAre(endpoints[n].0, endpoints[n].1, size, created);
    if i < n {
      CopyAt(endpoints[..n], size, created, i, j);
      assert endpoints[..n][..i] == endpoints[..i];
    } else {
      assert last[j] in last;
    }
  }

  /** A payload becomes exactly one fresh transaction per endpoint and key, numbered
      consecutively in the order of the loops, all created at the same time: the j-th key
      of the i-th endpoint comes after all keys of the endpoints before. */
  lemma FanOut(cfg: Config, w: World, s: State, endpoints: Endpoints, size: nat, created: int, i: nat, j: nat)
    ensures var es := Copies(endpoints, size, created); var r := Run(cfg, w, s, es);
      && |es| == KeyCount(endpoints)
      && r.ledger.counter == s.ledger.counter + KeyCount(endpoints)
      && (forall k :: 0 <= k < |es| ==> es[k].Appended?)
      && (i < |endpoints| && j < |endpoints[i].1| ==>
            At(r.trs, s.ledger.counter + 1 + KeyCount(endpoints[..i]) + j) == NewTr(size, endpoints[i].0, created))
  {
    hide Run, Copies, KeyCount, At;
    var es := Copies(endpoints, size, created);
    CopiesAre(endpoints, size, created);
    assert forall k :: 0 <= k < |es| ==> es[k] in es;
    AppendsNumber(cfg, w, s, es);
    if i < |endpoints| && j < |endpoints[i].1| {
      CopyAt(endpoints, size, created, i, j);
      var k := KeyCount(endpoints[..i]) + j;
      assert es[k] == Appended(endpoints[i].0, size, created);
      assert At(Run(cfg, w, s, es).trs, s.ledger.counter + 1 + k) == NewTr(size, endpoints[i].0, created);
      assert s.ledger.counter + 1 + k == s.ledger.counter + 1 + KeyCount(endpoints[..i]) + j;
    }
  }

  lemma {:induction false} RunAppend(cfg: Config, w: World, s: State, es: seq<Event>, es': seq<Event>)
    ensures Run(cfg, w, s, es + es') == Run(cfg, w, Run(cfg, w, s, es), es')
    decreases |es'|
  {
    if es' == [] {
      assert es + es' == es;
    } else {
      var n := |es'| - 1;
      RunAppend(cfg, w, s, es, es'[..n]);
      assert (es + es')[..|es| + n] == es + es'[..n];
    }
  }

  lemma {:induction false} RunFromKeeps(cfg: Config, w: World, s: State, events: seq<Event>)
    requires Nondecreasing(w) && Inv(cfg, w, s)
    ensures Inv(cfg, w, Run(cfg, w, s, events))
    decreases |events|
  {
    hide Inv, Step;
    if events != [] {
      var n := |events| - 1;
      RunFromKeeps(cfg, w, s, events[..n]);
      StepKeeps(cfg, w, Run(cfg, w, s, events[..n]), events[n]);
    }
  }

  /** `AgentTransaction.__init__`: one transaction per endpoint and key, then a flush. */
  method Submit(manager: TransactionManager, endpoints: Endpoints, size: nat)
    requires Sound(manager)
    modifies manager, manager.env, manager.repr
    ensures Sound(manager) && fresh(manager.repr - old(manager.repr))
    ensures var created := manager.env.world.clock(old(manager.env.ticks));
      manager.Model() == Run(manager.config, manager.env.world, old(manager.Model()),
                             [ClockRead] + Copies(endpoints, size, created) + [Flushed])
  {
    hide *;
    UnfoldSound(manager);
    ghost var config, w, s := manager.config, manager.env.world, manager.Model();
    ghost var created := w.clock(manager.env.ticks);
    RunFromKeeps(config, w, s, [ClockRead] + Copies(endpoints, size, created) + [Flushed]);
    Enqueue(manager, endpoints, size);
    FoldSound(manager);
  }

  method Enqueue(manager: TransactionManager, endpoints: Endpoints, size: nat)
    requires manager.Valid()
    modifies manager, manager.env, manager.repr
    ensures manager.Valid() && fresh(manager.repr - old(manager.repr))
    ensures var created := manager.env.world.clock(old(manager.env.ticks));
      manager.Model() == Run(manager.config, manager.env.world, old(manager.Model()),
                             [ClockRead] + Copies(endpoints, size, created) + [Flushed])
  {
    hide *;
    ghost var config, w, s := manager.config, manager.env.world, manager.Model();
    var created := ReadClock(manager);
    AppendCopies(manager, endpoints, size, created);
    RunThrough(config, w, s, Copies(endpoints, size, created));
    manager.Flush();
  }

  method ReadClock(manager: TransactionManager) returns (now: int)
    requires manager.Valid()
    modifies manager.env`ticks
    ensures manager.Model() == Tick(old(manager.Model())) && now == manager.env.world.clock(old(manager.env.ticks))
  {
    now := manager.env.UtcNow();
  }

  lemma RunThrough(cfg: Config, w: World, s: State, es: seq<Event>)
    ensures Run(cfg, w, s, [ClockRead] + es + [Flushed]) == Flush(cfg, w, Run(cfg, w, Tick(s), es))
  {
    RunLast(cfg, w, s, [], ClockRead);
    assert [] + [ClockRead] == [ClockRead];
    RunAppend(cfg, w, s, [ClockRead], es);
    RunLast(cfg, w, s, [ClockRead] + es, Flushed);
  }

  /** The two loops: a copy for every endpoint and key. */
  method AppendCopies(manager: TransactionManager, endpoints: Endpoints, size: nat, created: int)
    requires manager.Valid()
    modifies manager, manager.repr
    ensures manager.Valid() && fresh(manager.repr - old(manager.repr))
    ensures manager.Model() == Run(manager.config, manager.env.world, old(manager.Model()), Copies(endpoints, size, created))
  {
    ghost var config, w, s := manager.config, manager.env.world, manager.Model();
    hide Append, Step;
    for i := 0 to |endpoints|
      invariant manager.Valid() && fresh(manager.repr - old(manager.repr))
      invariant manager.Model() == Run(config, w, s, Copies(endpoints[..i], size, created))
    {
      AppendKeys(manager, endpoints[i].0, endpoints[i].1, size, created);
      RunAppend(config, w, s, Copies(endpoints[..i], size, created), KeyEvents(endpoints[i].0, endpoints[i].1, size, created));
      assert endpoints[..i + 1][..i] == endpoints[..i];
    }
    assert endpoints[..|endpoints|] == endpoints;
  }

  lemma RunLast(cfg: Config, w: World, s: State, events: seq<Event>, e: Event)
    ensures Run(cfg, w, s, events + [e]) == Step(cfg, w, Run(cfg, w, s, events), e)
  {
    assert (events + [e])[..|events|] == events;
  }

  lemma AppendIsAppendTr(cfg: Config, s: State, endpoint: string, size: nat, created: int)
    ensures Append(cfg, s, endpoint, size, created) == AppendTr(cfg, s, NewTr(size, endpoint, created))
  {
  }

  lemma NoKeys(cfg: Config, w: World, s: State, endpoint: string, size: nat, created: int)
    ensures Run(cfg, w, s, KeyEvents(endpoint, [], size, created)) == s
  {
  }

  lemma OneMoreKey(cfg: Config, w: World, s: State, endpoint: string, keys: seq<string>, key: string, size: nat,
        created: int)
    ensures Run(cfg, w, s, KeyEvents(endpoint, keys + [key], size, created)) ==
            Append(cfg, Run(cfg, w, s, KeyEvents(endpoint, keys, size, created)), endpoint, size, created)
  {
    hide Append;
    assert (keys + [key])[..|keys|] == keys;
    RunLast(cfg, w, s, KeyEvents(endpoint, keys, size, created), Appended(endpoint, size, created));
  }

  /** The inner loop: a copy for each key of one endpoint. */
  method AppendKeys(manager: TransactionManager, endpoint: string, keys: seq<string>, size: nat, created: int)
    requires manager.Valid()
    modifies manager, manager.repr
    ensures manager.Valid() && fresh(manager.repr - old(manager.repr))
    ensures manager.Model() == Run(manager.config, manager.env.world, old(manager.Model()), KeyEvents(endpoint, keys, size, created))
  {
    hide *;
    ghost var config, w, s := manager.config, manager.env.world, manager.Model();
    NoKeys(config, w, s, endpoint, size, created);
    assert keys[..0] == [];
    for j := 0 to |keys|
      invariant manager.Valid() && fresh(manager.repr - old(manager.repr))
      invariant manager.Model() == Run(config, w, s, KeyEvents(endpoint, keys[..j], size, created))
    {
      var transaction := new Transaction(size, endpoint, created);
      AppendIsAppendTr(config, manager.Model(), endpoint, size, created);
      manager.Append(transaction);
      assert keys[..j + 1] == keys[..j] + [keys[j]];
      OneMoreKey(config, w, s, endpoint, keys[..j], keys[j], size, created);
    }
    assert keys[..|keys|] == keys;
  }
}
