/**
 From every reachable state the system can settle: nothing that is under way waits for ever,
 in particular no deletion for the lock of a fill.
 */
module Settling {
  import opened CacheNode
  import opened Coherence
  import opened Rows
  import opened Runs
  import opened Wrappers

  /** Steps that finish what is under way: no new transaction, change, login or verification. */
  const CALM: Filter :=
    (st: Step) => (st.AtNode? && WorkStep(st.step)) || st.Rollback? || st.Tick? || st.PublishToken?

  predicate TaskWorks(t: Task) {
    t.Running? ==> WorkOk(t.work)
  }

  /** Every walk is within its keys. */
  predicate NodeWorks(n: Node) {
    && (n.handler.Some? ==> WorkOk(n.handler.value))
    && (forall j | j in n.tasks :: TaskWorks(n.tasks[j]))
  }

  predicate AllWork(s: State) {
    forall i | 0 <= i < |s.nodes| :: NodeWorks(s.nodes[i])
  }

  lemma NodeStepKeepsWorks(cat: Catalog, w: World, now: int, open: set<nat>, n: Node, ns: NodeStep)
    requires NodeWorks(n) && NodeEnabled(REAL, cat, w, now, open, n, ns)
    ensures NodeWorks(NodeAfter(REAL, cat, w, now, open, n, ns))
  {
    var n' := NodeAfter(REAL, cat, w, now, open, n, ns);
    forall j | j in n'.tasks ensures TaskWorks(n'.tasks[j]) {
      if j in n.tasks { assert TaskWorks(n.tasks[j]); }
    }
  }

  lemma StepKeepsWork(cat: Catalog, s: State, st: Step)
    requires AllWork(s) && Enabled(REAL, cat, s, st)
    ensures AllWork(After(REAL, cat, s, st))
  {
    if st.AtNode? {
      NodeStepKeepsWorks(cat, s.world, s.now, s.txs.Keys, s.nodes[st.node], st.step);
    }
  }

  lemma {:induction false} ExecKeepsWork(cat: Catalog, s: State, steps: seq<Step>)
    requires AllWork(s) && Exec(REAL, cat, s, steps).Some?
    ensures AllWork(Exec(REAL, cat, s, steps).value)
    decreases steps
  {
    if steps != [] {
      StepKeepsWork(cat, s, steps[0]);
      ExecKeepsWork(cat, After(REAL, cat, s, steps[0]), steps[1..]);
    }
  }

  lemma ReachableWorks(cat: Catalog, s: State)
    requires Reachable(REAL, cat, s)
    ensures AllWork(s)
  {
    var s0: State, steps: seq<Step> :| Start(cat, s0) && Exec(REAL, cat, s0, steps) == Some(s);
    ExecKeepsWork(cat, s0, steps);
  }

  // ---- Transactions and writers end ----

  lemma {:induction false} EndTxs(cat: Catalog, s0: State, s: State) returns (s': State)
    requires Leads(REAL, cat, CALM, s0, s)
    ensures Leads(REAL, cat, CALM, s0, s') && s' == s.(txs := map[])
    decreases |s.txs|
  {
    if s.txs == map[] {
      s' := s;
    } else {
      var t :| t in s.txs;
      var a := Step1(REAL, cat, CALM, s0, s, Rollback(t));
      assert a.txs.Keys == s.txs.Keys - {t};
      s' := EndTxs(cat, s0, a);
    }
  }

  lemma {:induction false} EndWriters(cat: Catalog, s0: State, s: State) returns (s': State)
    requires Leads(REAL, cat, CALM, s0, s) && AllWork(s)
    ensures Leads(REAL, cat, CALM, s0, s') && AllWork(s')
    ensures s' == s.(writers := map[], nodes := s'.nodes)
    decreases |s.writers|
  {
    if s.writers == map[] {
      s' := s;
    } else {
      var w :| w in s.writers;
      var a := Step1(REAL, cat, CALM, s0, s, PublishToken(w));
      StepKeepsWork(cat, s, PublishToken(w));
      assert a.writers.Keys == s.writers.Keys - {w};
      s' := EndWriters(cat, s0, a);
    }
  }

  // ---- A node comes to rest ----

  /** `s'` is `s` after work at node `i` alone. */
  predicate OnlyAt(s: State, i: nat, s': State) {
    i < |s.nodes| && i < |s'.nodes| && s' == With(s, i, s'.nodes[i]).(now := s'.now)
  }

  lemma ReadFill(cat: Catalog, s0: State, s: State, i: nat, k: Key) returns (s': State)
    requires Leads(REAL, cat, CALM, s0, s) && i < |s.nodes| && k in s.nodes[i].inflight
    ensures Leads(REAL, cat, CALM, s0, s')
    ensures exists v :: s' == With(s, i, s.nodes[i].(inflight := s.nodes[i].inflight[k := Some(v)]))
  {
    var n := s.nodes[i];
    if n.inflight[k].Some? {
      s' := s;
      assert n.inflight == n.inflight[k := Some(n.inflight[k].value)];
      assert s.nodes == s.nodes[i := n];
    } else {
      s' := NodeStep1(REAL, cat, CALM, s0, s, i, Read(k));
    }
  }

  lemma EndFill(cat: Catalog, s0: State, s: State, i: nat, k: Key) returns (s': State)
    requires Leads(REAL, cat, CALM, s0, s) && i < |s.nodes| && k in s.nodes[i].inflight
    ensures Leads(REAL, cat, CALM, s0, s') && OnlyAt(s, i, s')
    ensures s'.nodes[i] == s.nodes[i].(cache := s'.nodes[i].cache, inflight := s.nodes[i].inflight - {k})
  {
    var a := ReadFill(cat, s0, s, i, k);
    s' := NodeStep1(REAL, cat, CALM, s0, a, i, Store(k));
    assert s'.nodes[i].inflight == s.nodes[i].inflight - {k};
    assert s'.nodes == s.nodes[i := s'.nodes[i]];
  }

  lemma {:induction false} EndFills(cat: Catalog, s0: State, s: State, i: nat) returns (s': State)
    requires Leads(REAL, cat, CALM, s0, s) && i < |s.nodes|
    ensures Leads(REAL, cat, CALM, s0, s') && OnlyAt(s, i, s')
    ensures s'.nodes[i] == s.nodes[i].(cache := s'.nodes[i].cache, inflight := map[])
    decreases |s.nodes[i].inflight|
  {
    var n := s.nodes[i];
    if n.inflight == map[] {
      s' := s;
      assert s.nodes == s.nodes[i := n];
    } else {
      var k :| k in n.inflight;
      var a := EndFill(cat, s0, s, i, k);
      assert a.nodes[i].inflight.Keys == n.inflight.Keys - {k};
      s' := EndFills(cat, s0, a, i);
      OnlyAtInTurn(s, i, a, s');
    }
  }

  lemma EndHandler(cat: Catalog, s0: State, s: State, i: nat) returns (s': State)
    requires Leads(REAL, cat, CALM, s0, s) && i < |s.nodes| && NodeWorks(s.nodes[i])
    requires s.nodes[i].inflight == map[] && s.nodes[i].handler.Some?
    ensures Leads(REAL, cat, CALM, s0, s') && OnlyAt(s, i, s') && NodeWorks(s'.nodes[i])
    ensures s'.nodes[i].inflight == map[] && s'.nodes[i].queue == s.nodes[i].queue && s'.nodes[i].handler.None?
  {
    var a := WorkThrough(REAL, cat, CALM, s0, s, i);
    var j := Unused(a.nodes[i].tasks.Keys);
    s' := NodeStep1(REAL, cat, CALM, s0, a, i, Finish(j));
    assert s'.nodes == s.nodes[i := s'.nodes[i]];
    forall t | t in s'.nodes[i].tasks ensures TaskWorks(s'.nodes[i].tasks[t]) {
      if t in s.nodes[i].tasks { assert TaskWorks(s.nodes[i].tasks[t]); }
    }
  }

  lemma TakeMessage(cat: Catalog, s0: State, s: State, i: nat) returns (s': State)
    requires Leads(REAL, cat, CALM, s0, s) && i < |s.nodes| && NodeWorks(s.nodes[i])
    requires s.nodes[i].handler.None? && s.nodes[i].queue != []
    ensures Leads(REAL, cat, CALM, s0, s') && OnlyAt(s, i, s') && NodeWorks(s'.nodes[i])
    ensures s'.nodes[i].inflight == s.nodes[i].inflight && s'.nodes[i].queue == s.nodes[i].queue[1..]
  {
    s' := NodeStep1(REAL, cat, CALM, s0, s, i, Deliver);
    assert s'.nodes == s.nodes[i := s'.nodes[i]];
    NodeStepKeepsWorks(cat, s.world, s.now, s.txs.Keys, s.nodes[i], Deliver);
  }

  lemma OnlyAtInTurn(s: State, i: nat, a: State, b: State)
    requires OnlyAt(s, i, a) && OnlyAt(a, i, b)
    ensures OnlyAt(s, i, b)
  {
    assert b.nodes == s.nodes[i := b.nodes[i]];
  }

  lemma {:induction false} EndQueue(cat: Catalog, s0: State, s: State, i: nat) returns (s': State)
    requires Leads(REAL, cat, CALM, s0, s) && i < |s.nodes| && NodeWorks(s.nodes[i])
    requires s.nodes[i].inflight == map[]
    ensures Leads(REAL, cat, CALM, s0, s') && OnlyAt(s, i, s') && NodeWorks(s'.nodes[i])
    ensures s'.nodes[i].inflight == map[] && s'.nodes[i].queue == [] && s'.nodes[i].handler.None?
    decreases |s.nodes[i].queue|, s.nodes[i].handler.Some?
  {
    var n := s.nodes[i];
    if n.handler.Some? {
      var a := EndHandler(cat, s0, s, i);
      s' := EndQueue(cat, s0, a, i);
      OnlyAtInTurn(s, i, a, s');
    } else if n.queue == [] {
      s' := s;
      assert s.nodes == s.nodes[i := n];
    } else {
      var a := TakeMessage(cat, s0, s, i);
      s' := EndQueue(cat, s0, a, i);
      OnlyAtInTurn(s, i, a, s');
    }
  }

  lemma EndTask(cat: Catalog, s0: State, s: State, i: nat, j: nat) returns (s': State)
    requires Leads(REAL, cat, CALM, s0, s) && i < |s.nodes| && NodeWorks(s.nodes[i]) && s.txs == map[]
    requires s.nodes[i].inflight == map[] && j in s.nodes[i].tasks
    ensures Leads(REAL, cat, CALM, s0, s') && OnlyAt(s, i, s')
    ensures s'.nodes[i] == s.nodes[i].(cache := s'.nodes[i].cache, tasks := s.nodes[i].tasks - {j})
  {
    assert TaskWorks(s.nodes[i].tasks[j]);
    if s.nodes[i].tasks[j].Armed? {
      s' := DeleteAgain(REAL, cat, CALM, s0, s, i, j);
    } else {
      s' := TaskThrough(REAL, cat, CALM, s0, s, i, j);
    }
  }

  lemma {:induction false} EndTasks(cat: Catalog, s0: State, s: State, i: nat) returns (s': State)
    requires Leads(REAL, cat, CALM, s0, s) && i < |s.nodes| && NodeWorks(s.nodes[i]) && s.txs == map[]
    requires s.nodes[i].inflight == map[]
    ensures Leads(REAL, cat, CALM, s0, s') && OnlyAt(s, i, s')
    ensures s'.nodes[i] == s.nodes[i].(cache := s'.nodes[i].cache, tasks := map[])
    decreases |s.nodes[i].tasks|
  {
    var n := s.nodes[i];
    if n.tasks == map[] {
      s' := s;
      assert s.nodes == s.nodes[i := n];
    } else {
      var j :| j in n.tasks;
      var a := EndTask(cat, s0, s, i, j);
      assert a.nodes[i].tasks.Keys == n.tasks.Keys - {j};
      assert forall t | t in a.nodes[i].tasks :: a.nodes[i].tasks[t] == n.tasks[t];
      s' := EndTasks(cat, s0, a, i);
      OnlyAtInTurn(s, i, a, s');
    }
  }

  predicate AtRest(n: Node) {
    n.queue == [] && n.handler.None? && n.tasks == map[]
  }

  lemma EndNode(cat: Catalog, s0: State, s: State, i: nat) returns (s': State)
    requires Leads(REAL, cat, CALM, s0, s) && i < |s.nodes| && NodeWorks(s.nodes[i]) && s.txs == map[]
    ensures Leads(REAL, cat, CALM, s0, s') && OnlyAt(s, i, s') && AtRest(s'.nodes[i])
  {
    var a := EndFills(cat, s0, s, i);
    var b := EndQueue(cat, s0, a, i);
    s' := EndTasks(cat, s0, b, i);
    OnlyAtInTurn(s, i, a, b);
    OnlyAtInTurn(s, i, b, s');
  }

  lemma {:induction false} EndNodes(cat: Catalog, s0: State, s: State, upto: nat) returns (s': State)
    requires Leads(REAL, cat, CALM, s0, s) && AllWork(s) && s.txs == map[] && upto <= |s.nodes|
    ensures Leads(REAL, cat, CALM, s0, s') && s' == s.(nodes := s'.nodes, now := s'.now) && |s'.nodes| == |s.nodes|
    ensures forall i | 0 <= i < upto :: AtRest(s'.nodes[i])
    ensures forall i | upto <= i < |s.nodes| :: s'.nodes[i] == s.nodes[i]
  {
    if upto == 0 {
      s' := s;
    } else {
      var a := EndNodes(cat, s0, s, upto - 1);
      s' := EndNode(cat, s0, a, upto - 1);
    }
  }

  /**
   From every reachable state, some run without any new write settles; it leaves the rows and
   tokens as they are, and every node agreeing with them.
   */
  lemma CanSettle(cat: Catalog, s: State)
    requires Reachable(REAL, cat, s)
    ensures exists s' :: Leads(REAL, cat, CALM, s, s') && Quiet(s') && s'.txs == map[] && s'.world == s.world && Coherent(s')
  {
    ReachableWorks(cat, s);
    Here(REAL, cat, CALM, s);
    var a := EndTxs(cat, s, s);
    var b := EndWriters(cat, s, a);
    var c := EndNodes(cat, s, b, |b.nodes|);
    assert Quiet(c);
    LeadsReachable(REAL, cat, CALM, s, c);
    QuietIsCoherent(cat, c);
  }
}
