/**
 One process and its local key-to-bytes cache: fills under a per-key lock, and the work that
 invalidation messages cause. A fill holds the key's lock from the miss to the store. A
 message handler deletes each key without the lock and then under it; once through the list
 it arms a timer that does the same again.
 */
module CacheNode {
  import opened Rows
  import opened Wrappers

  /** The time between handling a message and the second deletion, in milliseconds. */
  const DELAY: int := 2000

  /** `tx` is the transaction that published the keys, if one did. */
  datatype Message = DelKeys(keys: seq<Key>, tx: Option<nat>) | DelAll

  /** A walk over the keys of one message; `half` says the unlocked deletion is done. */
  datatype Work = Work(keys: seq<Key>, tx: Option<nat>, pos: nat, half: bool)

  datatype Task = Armed(keys: seq<Key>, tx: Option<nat>, due: int) | Running(work: Work)

  /**
   `inflight` holds the keys whose lock is taken by a fill, with the value it has loaded so
   far; `queue` is the subscription; `handler` is the message being handled; `tasks` are the
   delayed deletions.
   */
  datatype Node = Node(cache: map<Key, Blob>, inflight: map<Key, Option<Blob>>,
                       queue: seq<Message>, handler: Option<Work>, tasks: map<nat, Task>)

  const EMPTY := Node(map[], map[], [], None, map[])

  /** What the caches are filled from: the committed rows and the token hash. */
  datatype World = World(db: Database, tokens: map<int, Token>)

  ghost function Truth(w: World, k: Key): Blob {
    match k
    case RowKey(_, _) => Lookup(w.db, k)
    case TokenKey(id) => if id in w.tokens then TokenBlob(w.tokens[id]) else NullBlob
  }

  /**
   Which parts of the design, and which obligations of its users, are in force:
   the delayed deletion, deleting under the lock, transactions that end before a delayed
   deletion of their own keys starts, commits that have published all keys of every row as it
   was and as it becomes, readers that give compound indexes in full, and restores that store
   the committed row.
   */
  datatype Rules = Rules(delayed: bool, locked: bool, timely: bool, announced: bool, whole: bool, committed: bool)

  const REAL := Rules(true, true, true, true, true, true)

  datatype NodeStep =
    | Lock(k: Key)
    | Read(k: Key)
    | Store(k: Key)
    | Abandon(k: Key)
    | Restore(k: Key, v: Blob)
    | Evict(k: Key)
    | Deliver
    | DropUnlocked
    | DropLocked
    | Finish(task: nat)
    | Fire(task: nat)
    | TaskDropUnlocked(task: nat)
    | TaskDropLocked(task: nat)
    | TaskDone(task: nat)

  ghost predicate Readable(rules: Rules, cat: Catalog, k: Key) {
    k.TokenKey? || (rules.whole ==> CoveredKey(cat, k))
  }

  predicate Free(rules: Rules, n: Node, k: Key) {
    rules.locked ==> k !in n.inflight
  }

  predicate Awaits(w: Work, half: bool) {
    w.pos < |w.keys| && w.half == half
  }

  ghost predicate NodeEnabled(rules: Rules, cat: Catalog, w: World, now: int, open: set<nat>, n: Node, st: NodeStep) {
    match st
    case Lock(k) => k !in n.inflight && k !in n.cache && Readable(rules, cat, k)
    case Read(k) => k in n.inflight && n.inflight[k].None?
    case Store(k) => k in n.inflight && n.inflight[k].Some?
    case Abandon(k) => k in n.inflight
    case Restore(k, v) => k.RowKey? && k !in n.inflight && Readable(rules, cat, k) && (rules.committed ==> v == Truth(w, k))
    case Evict(k) => true
    case Deliver => n.queue != [] && n.handler.None?
    case DropUnlocked => n.handler.Some? && Awaits(n.handler.value, false)
    case DropLocked => n.handler.Some? && Awaits(n.handler.value, true)
                       && Free(rules, n, n.handler.value.keys[n.handler.value.pos])
    case Finish(i) => n.handler.Some? && n.handler.value.pos == |n.handler.value.keys| && i !in n.tasks
    case Fire(i) => i in n.tasks && n.tasks[i].Armed? && n.tasks[i].due <= now
                    && (rules.timely && n.tasks[i].tx.Some? ==> n.tasks[i].tx.value !in open)
    case TaskDropUnlocked(i) => i in n.tasks && n.tasks[i].Running? && Awaits(n.tasks[i].work, false)
    case TaskDropLocked(i) => i in n.tasks && n.tasks[i].Running? && Awaits(n.tasks[i].work, true)
                              && Free(rules, n, n.tasks[i].work.keys[n.tasks[i].work.pos])
    case TaskDone(i) => i in n.tasks && n.tasks[i].Running? && n.tasks[i].work.pos == |n.tasks[i].work.keys|
  }

  ghost function NodeAfter(rules: Rules, cat: Catalog, w: World, now: int, open: set<nat>, n: Node, st: NodeStep): Node
    requires NodeEnabled(rules, cat, w, now, open, n, st)
  {
    match st
    case Lock(k) => n.(inflight := n.inflight[k := None])
    case Read(k) => n.(inflight := n.inflight[k := Some(Truth(w, k))])
    case Store(k) => n.(cache := n.cache[k := n.inflight[k].value], inflight := n.inflight - {k})
    case Abandon(k) => n.(inflight := n.inflight - {k})
    case Restore(k, v) => n.(cache := n.cache[k := v])
    case Evict(k) => n.(cache := n.cache - {k})
    case Deliver =>
      (match n.queue[0]
       case DelKeys(keys, tx) => n.(queue := n.queue[1..], handler := Some(Work(keys, tx, 0, false)))
       case DelAll => n.(queue := n.queue[1..], cache := map[]))
    case DropUnlocked =>
      var h := n.handler.value;
      n.(cache := n.cache - {h.keys[h.pos]}, handler := Some(h.(half := true)))
    case DropLocked =>
      var h := n.handler.value;
      n.(cache := n.cache - {h.keys[h.pos]}, handler := Some(h.(pos := h.pos + 1, half := false)))
    case Finish(i) =>
      var h := n.handler.value;
      n.(handler := None, tasks := if rules.delayed then n.tasks[i := Armed(h.keys, h.tx, now + DELAY)] else n.tasks)
    case Fire(i) => n.(tasks := n.tasks[i := Running(Work(n.tasks[i].keys, n.tasks[i].tx, 0, false))])
    case TaskDropUnlocked(i) =>
      var h := n.tasks[i].work;
      n.(cache := n.cache - {h.keys[h.pos]}, tasks := n.tasks[i := Running(h.(half := true))])
    case TaskDropLocked(i) =>
      var h := n.tasks[i].work;
      n.(cache := n.cache - {h.keys[h.pos]}, tasks := n.tasks[i := Running(h.(pos := h.pos + 1, half := false))])
    case TaskDone(i) => n.(tasks := n.tasks - {i})
  }

  /** Both deletions of a key, without the lock and under it, remove it and nothing else, at once. */
  lemma EitherDeletionRemoves(rules: Rules, cat: Catalog, w: World, now: int, open: set<nat>, n: Node, st: NodeStep)
    requires NodeEnabled(rules, cat, w, now, open, n, st)
    ensures st.DropUnlocked? || st.DropLocked? ==>
              var h := n.handler.value;
              NodeAfter(rules, cat, w, now, open, n, st).cache == n.cache - {h.keys[h.pos]}
    ensures st.TaskDropUnlocked? || st.TaskDropLocked? ==>
              var h := n.tasks[st.task].work;
              NodeAfter(rules, cat, w, now, open, n, st).cache == n.cache - {h.keys[h.pos]}
  {
  }

  // ---- What is still owed for a key ----

  function Left(w: Work): seq<Key> {
    if w.pos <= |w.keys| then w.keys[w.pos..] else []
  }

  predicate Queued(n: Node, k: Key) {
    exists i | 0 <= i < |n.queue| :: n.queue[i].DelKeys? && k in n.queue[i].keys
  }

  /** A locked deletion of `k` is still ahead in the queue or in the message being handled. */
  predicate Pending(n: Node, k: Key) {
    Queued(n, k) || (n.handler.Some? && k in Left(n.handler.value))
  }

  predicate TaskOwes(t: Task, k: Key) {
    match t
    case Armed(keys, _, _) => k in keys
    case Running(w) => k in Left(w)
  }

  /** A delayed locked deletion of `k` is still ahead. */
  predicate Owed(n: Node, k: Key) {
    || Queued(n, k)
    || (n.handler.Some? && k in n.handler.value.keys)
    || exists i | i in n.tasks :: TaskOwes(n.tasks[i], k)
  }

  /** A delayed deletion of `k`, published by transaction `t`, is ahead and has not started. */
  predicate OwedBy(n: Node, k: Key, t: nat) {
    || (exists i | 0 <= i < |n.queue| :: n.queue[i].DelKeys? && n.queue[i].tx == Some(t) && k in n.queue[i].keys)
    || (n.handler.Some? && n.handler.value.tx == Some(t) && k in n.handler.value.keys)
    || exists i | i in n.tasks :: n.tasks[i].Armed? && n.tasks[i].tx == Some(t) && k in n.tasks[i].keys
  }

  /** A cached value, or one a fill has loaded, differs from what the source would give now. */
  ghost predicate Stale(w: World, n: Node, k: Key) {
    || (k in n.cache && n.cache[k] != Truth(w, k))
    || (k in n.inflight && n.inflight[k].Some? && n.inflight[k].value != Truth(w, k))
  }

  /** `marks` are the tokens written but not yet published. */
  ghost predicate Excused(n: Node, marks: set<int>, k: Key) {
    match k
    case RowKey(_, _) => Owed(n, k)
    case TokenKey(id) => id in marks || Pending(n, k)
  }

  ghost predicate NodeInv(cat: Catalog, w: World, marks: set<int>, n: Node) {
    && (forall k: Key :: Stale(w, n, k) ==> Excused(n, marks, k))
    && n.cache.Keys !! n.inflight.Keys
    && (forall k: Key :: k in n.cache || k in n.inflight ==> Readable(REAL, cat, k))
  }

  // ---- Steps of one node keep its invariant ----

  /** A step of this kind leaves obligations as they are. */
  predicate FillStep(st: NodeStep) {
    st.Lock? || st.Read? || st.Store? || st.Abandon? || st.Restore? || st.Evict?
  }

  lemma FillKeepsInv(cat: Catalog, w: World, marks: set<int>, now: int, open: set<nat>, n: Node, st: NodeStep)
    requires NodeInv(cat, w, marks, n) && NodeEnabled(REAL, cat, w, now, open, n, st) && FillStep(st)
    ensures NodeInv(cat, w, marks, NodeAfter(REAL, cat, w, now, open, n, st))
  {
    var n' := NodeAfter(REAL, cat, w, now, open, n, st);
    forall k: Key | Stale(w, n', k) ensures Excused(n', marks, k) {
      assert Stale(w, n, k);
      assert Excused(n, marks, k);
    }
  }

  /** Working through keys only ever drops the key at hand, and only once it is deleted. */
  lemma DeliverKeepsInv(cat: Catalog, w: World, marks: set<int>, now: int, open: set<nat>, n: Node)
    requires NodeInv(cat, w, marks, n) && NodeEnabled(REAL, cat, w, now, open, n, Deliver)
    ensures NodeInv(cat, w, marks, NodeAfter(REAL, cat, w, now, open, n, Deliver))
  {
    var n' := NodeAfter(REAL, cat, w, now, open, n, Deliver);
    forall k: Key | Stale(w, n', k) ensures Excused(n', marks, k) {
      assert Stale(w, n, k);
      assert Excused(n, marks, k);
      DeliverMovesQueued(cat, w, now, open, n, k);
    }
  }

  lemma DeliverMovesQueued(cat: Catalog, w: World, now: int, open: set<nat>, n: Node, k: Key)
    requires NodeEnabled(REAL, cat, w, now, open, n, Deliver)
    ensures var n' := NodeAfter(REAL, cat, w, now, open, n, Deliver);
            Queued(n, k) ==> Queued(n', k) || (n'.handler.Some? && k in Left(n'.handler.value))
  {
  }

  lemma HandlerKeepsInv(cat: Catalog, w: World, marks: set<int>, now: int, open: set<nat>, n: Node, st: NodeStep)
    requires NodeInv(cat, w, marks, n) && NodeEnabled(REAL, cat, w, now, open, n, st)
    requires st.DropUnlocked? || st.DropLocked? || st.Finish?
    ensures NodeInv(cat, w, marks, NodeAfter(REAL, cat, w, now, open, n, st))
  {
    var n' := NodeAfter(REAL, cat, w, now, open, n, st);
    var h := n.handler.value;
    forall k: Key | Stale(w, n', k) ensures Excused(n', marks, k) {
      assert Stale(w, n, k);
      assert Excused(n, marks, k);
      assert Queued(n, k) ==> Queued(n', k);
      if st.DropLocked? {
        assert k != h.keys[h.pos];
        assert h.keys[h.pos..] == [h.keys[h.pos]] + h.keys[h.pos + 1..];
      } else if st.Finish? {
        assert Left(h) == [];
        assert TaskOwes(n'.tasks[st.task], k) <==> k in h.keys;
        assert forall i | i in n.tasks :: n'.tasks[i] == n.tasks[i];
      }
    }
  }

  lemma TaskKeepsInv(cat: Catalog, w: World, marks: set<int>, now: int, open: set<nat>, n: Node, st: NodeStep)
    requires NodeInv(cat, w, marks, n) && NodeEnabled(REAL, cat, w, now, open, n, st)
    requires st.Fire? || st.TaskDropUnlocked? || st.TaskDropLocked? || st.TaskDone?
    ensures NodeInv(cat, w, marks, NodeAfter(REAL, cat, w, now, open, n, st))
  {
    var n' := NodeAfter(REAL, cat, w, now, open, n, st);
    forall k: Key | Stale(w, n', k) ensures Excused(n', marks, k) {
      assert Stale(w, n, k);
      assert Excused(n, marks, k);
      assert Queued(n, k) ==> Queued(n', k);
      if i :| i in n.tasks && TaskOwes(n.tasks[i], k) {
        if i != st.task {
          assert n'.tasks[i] == n.tasks[i];
        } else if st.TaskDropLocked? {
          var h := n.tasks[i].work;
          assert k != h.keys[h.pos];
          assert h.keys[h.pos..] == [h.keys[h.pos]] + h.keys[h.pos + 1..];
          assert TaskOwes(n'.tasks[i], k);
        } else {
          assert TaskOwes(n'.tasks[i], k);
        }
      }
    }
  }

  /** Every step of a node keeps: a stale entry or fill has an obligation still ahead. */
  lemma NodeStepKeepsInv(cat: Catalog, w: World, marks: set<int>, now: int, open: set<nat>, n: Node, st: NodeStep)
    requires NodeInv(cat, w, marks, n) && NodeEnabled(REAL, cat, w, now, open, n, st)
    ensures NodeInv(cat, w, marks, NodeAfter(REAL, cat, w, now, open, n, st))
  {
    if FillStep(st) {
      FillKeepsInv(cat, w, marks, now, open, n, st);
    } else if st.Deliver? {
      DeliverKeepsInv(cat, w, marks, now, open, n);
    } else if st.DropUnlocked? || st.DropLocked? || st.Finish? {
      HandlerKeepsInv(cat, w, marks, now, open, n, st);
    } else {
      TaskKeepsInv(cat, w, marks, now, open, n, st);
    }
  }

  /** While its transaction is open, no delayed deletion that it caused is started. */
  lemma NodeStepKeepsOwedBy(cat: Catalog, w: World, now: int, open: set<nat>, n: Node, st: NodeStep, k: Key, t: nat)
    requires OwedBy(n, k, t) && NodeEnabled(REAL, cat, w, now, open, n, st) && t in open
    ensures OwedBy(NodeAfter(REAL, cat, w, now, open, n, st), k, t)
  {
    var n' := NodeAfter(REAL, cat, w, now, open, n, st);
    if i :| 0 <= i < |n.queue| && n.queue[i].DelKeys? && n.queue[i].tx == Some(t) && k in n.queue[i].keys {
      assert st.Deliver? && i > 0 ==> n'.queue[i - 1] == n.queue[i];
      assert !st.Deliver? ==> n'.queue == n.queue;
    } else if i :| i in n.tasks && n.tasks[i].Armed? && n.tasks[i].tx == Some(t) && k in n.tasks[i].keys {
      assert n'.tasks[i] == n.tasks[i];
    } else if st.Finish? {
      assert n'.tasks[st.task] == Armed(n.handler.value.keys, Some(t), now + DELAY);
    }
  }

  lemma OwedByIsOwed(n: Node, k: Key, t: nat)
    requires OwedBy(n, k, t)
    ensures Owed(n, k)
  {
    if i :| i in n.tasks && n.tasks[i].Armed? && n.tasks[i].tx == Some(t) && k in n.tasks[i].keys {
      assert TaskOwes(n.tasks[i], k);
    } else if i :| 0 <= i < |n.queue| && n.queue[i].DelKeys? && n.queue[i].tx == Some(t) && k in n.queue[i].keys {
      assert Queued(n, k);
    }
  }

  // ---- A message arrives ----

  function Received(n: Node, m: Message): Node {
    n.(queue := n.queue + [m])
  }

  lemma ReceivedKeeps(n: Node, m: Message, k: Key, t: nat)
    ensures Pending(n, k) ==> Pending(Received(n, m), k)
    ensures Owed(n, k) ==> Owed(Received(n, m), k)
    ensures OwedBy(n, k, t) ==> OwedBy(Received(n, m), k, t)
    ensures m.DelKeys? && k in m.keys ==> Queued(Received(n, m), k)
    ensures m.DelKeys? && k in m.keys && m.tx == Some(t) ==> OwedBy(Received(n, m), k, t)
  {
    var n' := Received(n, m);
    assert forall i | 0 <= i < |n.queue| :: n'.queue[i] == n.queue[i];
    assert n'.queue[|n.queue|] == m;
    if i :| 0 <= i < |n.queue| && n.queue[i].DelKeys? && k in n.queue[i].keys {
      assert n'.queue[i].DelKeys? && k in n'.queue[i].keys;
      assert Queued(n', k);
    }
  }
}
