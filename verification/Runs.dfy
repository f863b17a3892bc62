/** Building runs of the system: single steps, and the common stretches of work at one node. */
module Runs {
  import opened CacheNode
  import opened Coherence
  import opened Rows
  import opened Wrappers

  /** The steps a run may take. */
  type Filter = Step -> bool

  const ANY: Filter := _ => true

  predicate AllPass(f: Filter, steps: seq<Step>) {
    forall j | 0 <= j < |steps| :: f(steps[j])
  }

  ghost predicate Leads(rules: Rules, cat: Catalog, f: Filter, s: State, s': State) {
    exists steps: seq<Step> :: AllPass(f, steps) && Exec(rules, cat, s, steps) == Some(s')
  }

  lemma {:induction false} ExecAppend(rules: Rules, cat: Catalog, s: State, a: seq<Step>, b: seq<Step>)
    requires Exec(rules, cat, s, a).Some?
    ensures Exec(rules, cat, s, a + b) == Exec(rules, cat, Exec(rules, cat, s, a).value, b)
    decreases a
  {
    if a == [] {
      assert a + b == b;
    } else {
      assert (a + b)[1..] == a[1..] + b;
      ExecAppend(rules, cat, After(rules, cat, s, a[0]), a[1..], b);
    }
  }

  lemma ExecOne(rules: Rules, cat: Catalog, s: State, st: Step)
    requires Enabled(rules, cat, s, st)
    ensures Exec(rules, cat, s, [st]) == Some(After(rules, cat, s, st))
  {
    assert [st][1..] == [];
  }

  lemma Here(rules: Rules, cat: Catalog, f: Filter, s: State)
    ensures Leads(rules, cat, f, s, s)
  {
    assert AllPass(f, []) && Exec(rules, cat, s, []) == Some(s);
  }

  lemma Onward(rules: Rules, cat: Catalog, f: Filter, s: State, t: State, u: State)
    requires Leads(rules, cat, f, s, t) && Leads(rules, cat, f, t, u)
    ensures Leads(rules, cat, f, s, u)
  {
    var a: seq<Step> :| AllPass(f, a) && Exec(rules, cat, s, a) == Some(t);
    var b: seq<Step> :| AllPass(f, b) && Exec(rules, cat, t, b) == Some(u);
    ExecAppend(rules, cat, s, a, b);
    assert AllPass(f, a + b);
  }

  /** One more step of a run. */
  lemma Step1(rules: Rules, cat: Catalog, f: Filter, s0: State, s: State, st: Step) returns (s': State)
    requires Leads(rules, cat, f, s0, s) && Enabled(rules, cat, s, st) && f(st)
    ensures s' == After(rules, cat, s, st) && Leads(rules, cat, f, s0, s')
  {
    s' := After(rules, cat, s, st);
    ExecOne(rules, cat, s, st);
    assert AllPass(f, [st]);
    Onward(rules, cat, f, s0, s, s');
  }

  /** A start that leads somewhere makes it reachable, and reachable states lead to reachable ones. */
  lemma LeadsReachable(rules: Rules, cat: Catalog, f: Filter, s: State, s': State)
    requires Reachable(rules, cat, s) && Leads(rules, cat, f, s, s')
    ensures Reachable(rules, cat, s')
  {
    var s0: State, a: seq<Step> :| Start(cat, s0) && Exec(rules, cat, s0, a) == Some(s);
    var b: seq<Step> :| AllPass(f, b) && Exec(rules, cat, s, b) == Some(s');
    ExecAppend(rules, cat, s0, a, b);
  }

  lemma StartReachable(rules: Rules, cat: Catalog, s: State)
    requires Start(cat, s)
    ensures Reachable(rules, cat, s)
  {
    assert Exec(rules, cat, s, []) == Some(s);
  }

  lemma Above(xs: set<nat>) returns (b: nat)
    ensures forall x | x in xs :: x < b
  {
    if xs == {} {
      b := 0;
    } else {
      var x :| x in xs;
      var c := Above(xs - {x});
      assert forall y | y in xs :: y == x || y in xs - {x};
      b := if x < c then c else x + 1;
    }
  }

  /** There is always a number left for a new transaction, writer, verification or delayed deletion. */
  lemma Unused(xs: set<nat>) returns (b: nat)
    ensures b !in xs
  {
    b := Above(xs);
  }

  // ---- Work at one node ----

  function With(s: State, i: nat, n: Node): State
    requires i < |s.nodes|
  {
    s.(nodes := s.nodes[i := n])
  }

  /** A step that only carries out what messages and fills have begun. */
  predicate WorkStep(ns: NodeStep) {
    !ns.Lock? && !ns.Restore? && !ns.Evict?
  }

  ghost predicate LetsWork(f: Filter) {
    && (forall i: nat, ns: NodeStep :: WorkStep(ns) ==> f(AtNode(i, ns)))
    && (forall d: nat :: f(Tick(d)))
  }

  /** One more step at a node. */
  lemma NodeStep1(rules: Rules, cat: Catalog, f: Filter, s0: State, s: State, i: nat, ns: NodeStep) returns (s': State)
    requires Leads(rules, cat, f, s0, s) && f(AtNode(i, ns)) && i < |s.nodes|
    requires NodeEnabled(rules, cat, s.world, s.now, s.txs.Keys, s.nodes[i], ns)
    ensures s' == With(s, i, NodeAfter(rules, cat, s.world, s.now, s.txs.Keys, s.nodes[i], ns))
    ensures Leads(rules, cat, f, s0, s')
  {
    s' := Step1(rules, cat, f, s0, s, AtNode(i, ns));
  }

  function Dropped(cache: map<Key, Blob>, keys: seq<Key>): map<Key, Blob> {
    cache - (set k | k in keys)
  }

  lemma DroppedStep(cache: map<Key, Blob>, keys: seq<Key>, pos: nat)
    requires pos <= |keys|
    ensures pos == |keys| ==> Dropped(cache, keys[pos..]) == cache
    ensures pos < |keys| ==> Dropped(cache - {keys[pos]}, keys[pos + 1..]) == Dropped(cache, keys[pos..])
  {
    if pos < |keys| {
      assert keys[pos..] == [keys[pos]] + keys[pos + 1..];
    }
  }

  /** The walk is within its keys, and between the two deletions of a key only if there is one. */
  predicate WorkOk(w: Work) {
    if w.half then w.pos < |w.keys| else w.pos <= |w.keys|
  }

  ghost predicate AllFree(rules: Rules, n: Node, keys: seq<Key>) {
    forall k | k in keys :: Free(rules, n, k)
  }

  /** The locked deletion of the handler's current key. */
  function Advanced(n: Node): Node
    requires n.handler.Some? && n.handler.value.pos < |n.handler.value.keys|
  {
    var h := n.handler.value;
    n.(cache := n.cache - {h.keys[h.pos]}, handler := Some(h.(pos := h.pos + 1, half := false)))
  }

  lemma HandlerDrops(rules: Rules, cat: Catalog, f: Filter, s0: State, s: State, i: nat) returns (s': State)
    requires LetsWork(f) && Leads(rules, cat, f, s0, s) && i < |s.nodes|
    requires s.nodes[i].handler.Some? && s.nodes[i].handler.value.pos < |s.nodes[i].handler.value.keys|
    requires AllFree(rules, s.nodes[i], s.nodes[i].handler.value.keys)
    ensures Leads(rules, cat, f, s0, s') && s' == With(s, i, Advanced(s.nodes[i]))
  {
    var n := s.nodes[i];
    var h := n.handler.value;
    assert h.keys[h.pos] in h.keys;
    var a := s;
    if !h.half {
      a := NodeStep1(rules, cat, f, s0, s, i, DropUnlocked);
      assert a.nodes[i] == n.(cache := n.cache - {h.keys[h.pos]}, handler := Some(h.(half := true)));
    }
    s' := NodeStep1(rules, cat, f, s0, a, i, DropLocked);
    assert s'.nodes[i].cache == n.cache - {h.keys[h.pos]};
    assert s'.nodes == s.nodes[i := Advanced(n)];
  }

  lemma {:induction false} WorkThrough(rules: Rules, cat: Catalog, f: Filter, s0: State, s: State, i: nat)
    returns (s': State)
    requires LetsWork(f) && Leads(rules, cat, f, s0, s) && i < |s.nodes|
    requires s.nodes[i].handler.Some? && WorkOk(s.nodes[i].handler.value)
    requires AllFree(rules, s.nodes[i], s.nodes[i].handler.value.keys)
    ensures Leads(rules, cat, f, s0, s')
    ensures var n := s.nodes[i]; var h := n.handler.value;
            s' == With(s, i, n.(cache := Dropped(n.cache, h.keys[h.pos..]),
                                handler := Some(h.(pos := |h.keys|, half := false))))
    decreases |s.nodes[i].handler.value.keys| - s.nodes[i].handler.value.pos
  {
    var n := s.nodes[i];
    var h := n.handler.value;
    DroppedStep(n.cache, h.keys, h.pos);
    if h.pos == |h.keys| {
      s' := s;
      assert s.nodes == s.nodes[i := n];
    } else {
      var b := HandlerDrops(rules, cat, f, s0, s, i);
      s' := WorkThrough(rules, cat, f, s0, b, i);
    }
  }

  /** The locked deletion of a task's current key. */
  function TaskAdvanced(n: Node, j: nat): Node
    requires j in n.tasks && n.tasks[j].Running? && n.tasks[j].work.pos < |n.tasks[j].work.keys|
  {
    var w := n.tasks[j].work;
    n.(cache := n.cache - {w.keys[w.pos]}, tasks := n.tasks[j := Running(w.(pos := w.pos + 1, half := false))])
  }

  lemma TaskDrops(rules: Rules, cat: Catalog, f: Filter, s0: State, s: State, i: nat, j: nat) returns (s': State)
    requires LetsWork(f) && Leads(rules, cat, f, s0, s) && i < |s.nodes|
    requires j in s.nodes[i].tasks && s.nodes[i].tasks[j].Running?
    requires s.nodes[i].tasks[j].work.pos < |s.nodes[i].tasks[j].work.keys|
    requires AllFree(rules, s.nodes[i], s.nodes[i].tasks[j].work.keys)
    ensures Leads(rules, cat, f, s0, s') && s' == With(s, i, TaskAdvanced(s.nodes[i], j))
  {
    var n := s.nodes[i];
    var w := n.tasks[j].work;
    assert w.keys[w.pos] in w.keys;
    var a := s;
    if !w.half {
      a := NodeStep1(rules, cat, f, s0, s, i, TaskDropUnlocked(j));
      assert a.nodes[i] == n.(cache := n.cache - {w.keys[w.pos]}, tasks := n.tasks[j := Running(w.(half := true))]);
    }
    s' := NodeStep1(rules, cat, f, s0, a, i, TaskDropLocked(j));
    assert s'.nodes[i].cache == n.cache - {w.keys[w.pos]};
    assert s'.nodes[i].tasks == TaskAdvanced(n, j).tasks;
    assert s'.nodes == s.nodes[i := TaskAdvanced(n, j)];
  }

  lemma {:induction false} TaskThrough(rules: Rules, cat: Catalog, f: Filter, s0: State, s: State, i: nat, j: nat)
    returns (s': State)
    requires LetsWork(f) && Leads(rules, cat, f, s0, s) && i < |s.nodes|
    requires j in s.nodes[i].tasks && s.nodes[i].tasks[j].Running? && WorkOk(s.nodes[i].tasks[j].work)
    requires AllFree(rules, s.nodes[i], s.nodes[i].tasks[j].work.keys)
    ensures Leads(rules, cat, f, s0, s')
    ensures var n := s.nodes[i]; var w := n.tasks[j].work;
            s' == With(s, i, n.(cache := Dropped(n.cache, w.keys[w.pos..]), tasks := n.tasks - {j}))
    decreases |s.nodes[i].tasks[j].work.keys| - s.nodes[i].tasks[j].work.pos
  {
    var n := s.nodes[i];
    var w := n.tasks[j].work;
    DroppedStep(n.cache, w.keys, w.pos);
    if w.pos == |w.keys| {
      s' := NodeStep1(rules, cat, f, s0, s, i, TaskDone(j));
    } else {
      var b := TaskDrops(rules, cat, f, s0, s, i, j);
      s' := TaskThrough(rules, cat, f, s0, b, i, j);
      assert b.nodes[i].tasks - {j} == n.tasks - {j};
    }
  }

  /** The first queued message is handled. */
  lemma HandleFirst(rules: Rules, cat: Catalog, f: Filter, s0: State, s: State, i: nat,
                    keys: seq<Key>, tx: Option<nat>, rest: seq<Message>) returns (s': State)
    requires LetsWork(f) && Leads(rules, cat, f, s0, s) && i < |s.nodes|
    requires s.nodes[i].queue == [DelKeys(keys, tx)] + rest && s.nodes[i].handler.None?
    requires AllFree(rules, s.nodes[i], keys)
    ensures Leads(rules, cat, f, s0, s')
    ensures s' == With(s, i, s.nodes[i].(cache := Dropped(s.nodes[i].cache, keys), queue := rest,
                                         handler := Some(Work(keys, tx, |keys|, false))))
  {
    var a := NodeStep1(rules, cat, f, s0, s, i, Deliver);
    assert a.nodes[i].queue == rest;
    s' := WorkThrough(rules, cat, f, s0, a, i);
    assert keys[0..] == keys;
  }

  /** A delayed deletion, once due and its transaction ended, is started. */
  lemma StartTask(rules: Rules, cat: Catalog, f: Filter, s0: State, s: State, i: nat, j: nat) returns (s': State)
    requires LetsWork(f) && Leads(rules, cat, f, s0, s) && i < |s.nodes|
    requires j in s.nodes[i].tasks && s.nodes[i].tasks[j].Armed?
    requires rules.timely && s.nodes[i].tasks[j].tx.Some? ==> s.nodes[i].tasks[j].tx.value !in s.txs
    ensures Leads(rules, cat, f, s0, s')
    ensures var n := s.nodes[i]; var t := n.tasks[j];
            s' == With(s, i, n.(tasks := n.tasks[j := Running(Work(t.keys, t.tx, 0, false))])).(now := s'.now)
  {
    var due := s.nodes[i].tasks[j].due;
    var a := Step1(rules, cat, f, s0, s, Tick(if s.now < due then due - s.now else 0));
    s' := NodeStep1(rules, cat, f, s0, a, i, Fire(j));
  }

  lemma DeleteAgain(rules: Rules, cat: Catalog, f: Filter, s0: State, s: State, i: nat, j: nat) returns (s': State)
    requires LetsWork(f) && Leads(rules, cat, f, s0, s) && i < |s.nodes|
    requires j in s.nodes[i].tasks && s.nodes[i].tasks[j].Armed?
    requires rules.timely && s.nodes[i].tasks[j].tx.Some? ==> s.nodes[i].tasks[j].tx.value !in s.txs
    requires AllFree(rules, s.nodes[i], s.nodes[i].tasks[j].keys)
    ensures Leads(rules, cat, f, s0, s')
    ensures var n := s.nodes[i];
            s' == With(s, i, n.(cache := Dropped(n.cache, n.tasks[j].keys), tasks := n.tasks - {j})).(now := s'.now)
  {
    var n := s.nodes[i];
    var keys := n.tasks[j].keys;
    var a := StartTask(rules, cat, f, s0, s, i, j);
    s' := TaskThrough(rules, cat, f, s0, a, i, j);
    assert a.nodes[i].tasks - {j} == n.tasks - {j};
    assert keys[0..] == keys;
  }

  /** The first queued message is handled at a node with no delayed deletions, and its own is carried out. */
  lemma Settle(rules: Rules, cat: Catalog, f: Filter, s0: State, s: State, i: nat,
               keys: seq<Key>, tx: Option<nat>, rest: seq<Message>) returns (s': State)
    requires LetsWork(f) && Leads(rules, cat, f, s0, s) && i < |s.nodes|
    requires s.nodes[i].queue == [DelKeys(keys, tx)] + rest && s.nodes[i].handler.None? && s.nodes[i].tasks == map[]
    requires AllFree(rules, s.nodes[i], keys)
    requires rules.timely && rules.delayed && tx.Some? ==> tx.value !in s.txs
    ensures Leads(rules, cat, f, s0, s')
    ensures s' == With(s, i, s.nodes[i].(cache := Dropped(s.nodes[i].cache, keys), queue := rest)).(now := s'.now)
  {
    var n := s.nodes[i];
    var a := HandleFirst(rules, cat, f, s0, s, i, keys, tx, rest);
    s' := NodeStep1(rules, cat, f, s0, a, i, Finish(0));
    if rules.delayed {
      s' := DeleteAgain(rules, cat, f, s0, s', i, 0);
      assert Dropped(Dropped(n.cache, keys), keys) == Dropped(n.cache, keys);
      assert s'.nodes[i].tasks == map[];
    }
    assert s'.nodes[i] == n.(cache := Dropped(n.cache, keys), queue := rest);
  }

  /** A reader locks the key, misses, and loads what is committed. */
  lemma Load(rules: Rules, cat: Catalog, f: Filter, s0: State, s: State, i: nat, k: Key) returns (s': State)
    requires f(AtNode(i, Lock(k))) && f(AtNode(i, Read(k))) && Leads(rules, cat, f, s0, s) && i < |s.nodes|
    requires k !in s.nodes[i].cache && k !in s.nodes[i].inflight && Readable(rules, cat, k)
    ensures Leads(rules, cat, f, s0, s')
    ensures s' == With(s, i, s.nodes[i].(inflight := s.nodes[i].inflight[k := Some(Truth(s.world, k))]))
  {
    var n := s.nodes[i];
    var a := NodeStep1(rules, cat, f, s0, s, i, Lock(k));
    s' := NodeStep1(rules, cat, f, s0, a, i, Read(k));
    assert n.inflight[k := None][k := Some(Truth(s.world, k))] == n.inflight[k := Some(Truth(s.world, k))];
  }

  /** An undisturbed read-through. */
  lemma Fill(rules: Rules, cat: Catalog, f: Filter, s0: State, s: State, i: nat, k: Key) returns (s': State)
    requires f(AtNode(i, Lock(k))) && f(AtNode(i, Read(k))) && f(AtNode(i, Store(k)))
    requires Leads(rules, cat, f, s0, s) && i < |s.nodes|
    requires k !in s.nodes[i].cache && k !in s.nodes[i].inflight && Readable(rules, cat, k)
    ensures Leads(rules, cat, f, s0, s')
    ensures s' == With(s, i, s.nodes[i].(cache := s.nodes[i].cache[k := Truth(s.world, k)]))
  {
    var a := Load(rules, cat, f, s0, s, i, k);
    s' := NodeStep1(rules, cat, f, s0, a, i, Store(k));
    assert s'.nodes[i].inflight == s.nodes[i].inflight;
    assert s'.nodes == s.nodes[i := s'.nodes[i]];
  }
}
