/**
 The timing rule of the coherence theorem, that a transaction ends before a delayed deletion
 of its own keys starts, follows from a rule on the clock alone.
 */
module Clock {
  import opened CacheNode
  import opened Coherence
  import opened Rows
  import opened Wrappers

  /** No open transaction is as old as two seconds, counted from its first publication. */
  predicate InTime(s: State) {
    forall t | t in s.txs && s.txs[t].since.Some? :: s.now < s.txs[t].since.value + 2000
  }

  const UNTIMED := REAL.(timely := false)

  ghost predicate AlwaysInTime(cat: Catalog, s: State, steps: seq<Step>)
    requires Exec(UNTIMED, cat, s, steps).Some?
    decreases steps
  {
    InTime(s) && (steps == [] || AlwaysInTime(cat, After(UNTIMED, cat, s, steps[0]), steps[1..]))
  }

  /** The keys of transaction `t` were published not before `from`. */
  predicate PublishedFrom(s: State, t: nat, from: int) {
    t in s.begun && (t in s.txs ==> s.txs[t].since.Some? && s.txs[t].since.value <= from)
  }

  predicate MessageOk(s: State, m: Message) {
    m.DelKeys? && m.tx.Some? ==> PublishedFrom(s, m.tx.value, s.now)
  }

  predicate HandlerOk(s: State, n: Node) {
    n.handler.Some? && n.handler.value.tx.Some? ==> PublishedFrom(s, n.handler.value.tx.value, s.now)
  }

  predicate TaskOk(s: State, t: Task) {
    t.Armed? && t.tx.Some? ==> PublishedFrom(s, t.tx.value, t.due - DELAY)
  }

  predicate NodeOk(s: State, n: Node) {
    && (forall q | 0 <= q < |n.queue| :: MessageOk(s, n.queue[q]))
    && HandlerOk(s, n)
    && (forall j | j in n.tasks :: TaskOk(s, n.tasks[j]))
  }

  /** Tags name transactions that have begun, and those still open were published in time. */
  predicate ClockInv(s: State) {
    && s.txs.Keys <= s.begun
    && (forall t | t in s.txs && s.txs[t].since.Some? :: s.txs[t].since.value <= s.now)
    && (forall i | 0 <= i < |s.nodes| :: NodeOk(s, s.nodes[i]))
  }

  /** Everything said of a transaction stays true: it ends, or is published once and for all. */
  ghost predicate Ages(s: State, s': State) {
    && s.now <= s'.now && s.begun <= s'.begun
    && forall t: nat, from: int | PublishedFrom(s, t, from) :: PublishedFrom(s', t, from)
  }

  lemma NodeOkAges(s: State, s': State, n: Node)
    requires NodeOk(s, n) && Ages(s, s')
    ensures NodeOk(s', n)
  {
    forall t | PublishedFrom(s, t, s.now) ensures PublishedFrom(s', t, s'.now) {
      assert PublishedFrom(s', t, s.now);
    }
    forall q | 0 <= q < |n.queue| ensures MessageOk(s', n.queue[q]) { assert MessageOk(s, n.queue[q]); }
    forall j | j in n.tasks ensures TaskOk(s', n.tasks[j]) { assert TaskOk(s, n.tasks[j]); }
  }

  lemma NodeStepKeepsOk(cat: Catalog, s: State, i: nat, ns: NodeStep)
    requires ClockInv(s) && Enabled(UNTIMED, cat, s, AtNode(i, ns))
    ensures NodeOk(s, After(UNTIMED, cat, s, AtNode(i, ns)).nodes[i])
  {
    var n, n' := s.nodes[i], After(UNTIMED, cat, s, AtNode(i, ns)).nodes[i];
    assert NodeOk(s, n);
    forall q | 0 <= q < |n'.queue| ensures MessageOk(s, n'.queue[q]) {
      assert n'.queue[q] == n.queue[if ns.Deliver? then q + 1 else q];
    }
    assert ns.Deliver? ==> MessageOk(s, n.queue[0]);
    forall j | j in n'.tasks ensures TaskOk(s, n'.tasks[j]) {
      if j in n.tasks && n'.tasks[j] == n.tasks[j] {
        assert TaskOk(s, n.tasks[j]);
      }
    }
  }

  lemma StepAges(cat: Catalog, s: State, st: Step)
    requires ClockInv(s) && Enabled(UNTIMED, cat, s, st)
    ensures Ages(s, After(UNTIMED, cat, s, st))
  {
  }

  lemma SentIsOk(s: State, s': State, m: Message)
    requires Ages(s, s') && MessageOk(s', m) && s'.nodes == ToAll(s.nodes, m)
    requires forall i | 0 <= i < |s.nodes| :: NodeOk(s, s.nodes[i])
    ensures forall i | 0 <= i < |s'.nodes| :: NodeOk(s', s'.nodes[i])
  {
    forall i | 0 <= i < |s'.nodes| ensures NodeOk(s', s'.nodes[i]) {
      var n, n' := s.nodes[i], s'.nodes[i];
      NodeOkAges(s, s', n);
      forall q | 0 <= q < |n'.queue| ensures MessageOk(s', n'.queue[q]) {
        if q < |n.queue| { assert n'.queue[q] == n.queue[q]; }
      }
    }
  }

  lemma StepKeepsClockInv(cat: Catalog, s: State, st: Step)
    requires ClockInv(s) && Enabled(UNTIMED, cat, s, st)
    ensures ClockInv(After(UNTIMED, cat, s, st))
  {
    var s' := After(UNTIMED, cat, s, st);
    StepAges(cat, s, st);
    match st
    case AtNode(i, ns) =>
      NodeStepKeepsOk(cat, s, i, ns);
      forall j | 0 <= j < |s'.nodes| ensures NodeOk(s', s'.nodes[j]) {
        NodeOkAges(s, s', s'.nodes[j]);
      }
    case Publish(t, keys) => SentIsOk(s, s', DelKeys(keys, Some(t)));
    case Broadcast(m) => SentIsOk(s, s', m);
    case PublishToken(w) => SentIsOk(s, s', DelKeys([TokenKey(s.writers[w])], None));
    case _ =>
      forall j | 0 <= j < |s'.nodes| ensures NodeOk(s', s'.nodes[j]) {
        NodeOkAges(s, s', s.nodes[j]);
      }
  }

  /** In time, the untimed machine starts no deletion of an open transaction. */
  lemma InTimeIsTimely(cat: Catalog, s: State, st: Step)
    requires ClockInv(s) && InTime(s) && Enabled(UNTIMED, cat, s, st)
    ensures Enabled(REAL, cat, s, st) && After(REAL, cat, s, st) == After(UNTIMED, cat, s, st)
  {
    if st.AtNode? && st.step.Fire? {
      var t := s.nodes[st.node].tasks[st.step.task];
      assert NodeOk(s, s.nodes[st.node]) && TaskOk(s, t);
    }
  }

  lemma {:induction false} SameRun(cat: Catalog, s: State, steps: seq<Step>)
    requires ClockInv(s) && Exec(UNTIMED, cat, s, steps).Some? && AlwaysInTime(cat, s, steps)
    ensures Exec(REAL, cat, s, steps) == Exec(UNTIMED, cat, s, steps)
    decreases steps
  {
    if steps != [] {
      InTimeIsTimely(cat, s, steps[0]);
      StepKeepsClockInv(cat, s, steps[0]);
      SameRun(cat, After(UNTIMED, cat, s, steps[0]), steps[1..]);
    }
  }

  /** A run in which every transaction ends within two seconds of its first publication settles coherent. */
  lemma InTimeRunsSettleCoherent(cat: Catalog, s0: State, steps: seq<Step>)
    requires Start(cat, s0) && Exec(UNTIMED, cat, s0, steps).Some? && AlwaysInTime(cat, s0, steps)
    requires Quiet(Exec(UNTIMED, cat, s0, steps).value)
    ensures Coherent(Exec(UNTIMED, cat, s0, steps).value)
  {
    SameRun(cat, s0, steps);
    QuietIsCoherent(cat, Exec(UNTIMED, cat, s0, steps).value);
  }
}
