/**
 The whole system: writers of rows and of login tokens, the publish channel, and every
 node's cache. Rows are written in a transaction that publishes before it commits; tokens are
 written to the token hash first and published afterwards.
 */
module Coherence {
  import opened CacheNode
  import opened Rows
  import opened Wrappers

  /** An open transaction; `since` is the time of its first publication. */
  datatype Tx = Tx(writes: map<Loc, Option<Row>>, published: set<Key>, since: Option<int>)

  /** A verification that holds the token it was served, has renewed it, or is about to remove it. */
  datatype Held = Reading(id: int, token: Token) | Renewing(id: int, token: Token) | Expiring(id: int)

  /**
   `begun` are the transactions there have been; `writers` maps a caller between its write to
   the token hash and its publication to the token's id; `verifiers` are the verifications
   between their cache read and their end.
   */
  datatype State = State(world: World, policy: Policy, txs: map<nat, Tx>, begun: set<nat>, writers: map<nat, int>,
                         verifiers: map<nat, Held>, nodes: seq<Node>, now: int)

  datatype Step =
    | AtNode(node: nat, step: NodeStep)
    | Begin(tx: nat)
    | Write(tx: nat, loc: Loc, row: Option<Row>)
    | Publish(tx: nat, keys: seq<Key>)
    | Commit(tx: nat)
    | Rollback(tx: nat)
    | Broadcast(message: Message)
    | Tick(amount: nat)
    | PutToken(writer: nat, id: int, token: Token)
    | RemoveToken(writer: nat, id: int)
    | PublishToken(writer: nat)
    | VerifyRead(verifier: nat, id: int, node: nat, token: Token)
    | VerifyDecide(verifier: nat)
    | VerifyWrite(verifier: nat, writer: nat)
    | VerifyEnd(verifier: nat)

  function Marks(s: State): set<int> {
    set w | w in s.writers :: s.writers[w]
  }

  /** All keys of the rows a transaction changes are published: as they were and as they become. */
  ghost predicate Announces(cat: Catalog, db: Database, tx: Tx) {
    forall l | l in tx.writes ::
      && (tx.writes[l].Some? ==> Announced(cat, l, tx.writes[l].value, tx.published))
      && (l in db ==> Announced(cat, l, db[l], tx.published))
  }

  /** The database keeps its unique indexes; the keys are what SessionSafety is about. */
  ghost predicate Committable(rules: Rules, cat: Catalog, db: Database, tx: Tx) {
    UniqueDb(cat, Applied(db, tx.writes)) && (rules.announced ==> Announces(cat, db, tx))
  }

  /** The token a caller of the cache may be served at a node, from the cache or a fill. */
  predicate Served(n: Node, k: Key, token: Token) {
    || (k in n.cache && n.cache[k] == TokenBlob(token))
    || (k in n.inflight && n.inflight[k] == Some(TokenBlob(token)))
  }

  predicate Serves(n: Node, k: Key) {
    || (k in n.cache && n.cache[k].TokenBlob?)
    || (k in n.inflight && n.inflight[k].Some? && n.inflight[k].value.TokenBlob?)
  }

  /** What a verification makes of its token: expired, renewed, or, for `None`, good as it is. */
  function Decided(p: Policy, now: int, id: int, token: Token): Option<Held> {
    if token.expire < now then Some(Expiring(id))
    else if token.expire - now < p.maxRefresh then Some(Renewing(id, token.(expire := now + p.timeout)))
    else None
  }

  ghost predicate Enabled(rules: Rules, cat: Catalog, s: State, st: Step) {
    match st
    case AtNode(i, ns) => i < |s.nodes| && NodeEnabled(rules, cat, s.world, s.now, s.txs.Keys, s.nodes[i], ns)
    case Begin(t) => t !in s.txs && t !in s.begun
    case Write(t, l, row) => t in s.txs
    case Publish(t, keys) => t in s.txs
    case Commit(t) => t in s.txs && Committable(rules, cat, s.world.db, s.txs[t])
    case Rollback(t) => t in s.txs
    case Broadcast(m) => m.DelKeys? ==> m.tx.None?
    case Tick(d) => true
    case PutToken(w, id, token) => w !in s.writers
    case RemoveToken(w, id) => w !in s.writers
    case PublishToken(w) => w in s.writers
    case VerifyRead(v, id, i, token) => v !in s.verifiers && i < |s.nodes| && Served(s.nodes[i], TokenKey(id), token)
    case VerifyDecide(v) => v in s.verifiers && s.verifiers[v].Reading?
    case VerifyWrite(v, w) => v in s.verifiers && !s.verifiers[v].Reading? && w !in s.writers
    case VerifyEnd(v) => v in s.verifiers
  }

  function ToAll(nodes: seq<Node>, m: Message): seq<Node> {
    seq(|nodes|, i requires 0 <= i < |nodes| => Received(nodes[i], m))
  }

  function WithToken(w: World, id: int, token: Token): World {
    w.(tokens := w.tokens[id := token])
  }

  function WithoutToken(w: World, id: int): World {
    w.(tokens := w.tokens - {id})
  }

  function Published(tx: Tx, keys: seq<Key>, now: int): Tx {
    tx.(published := tx.published + (set k | k in keys), since := if tx.since.Some? then tx.since else Some(now))
  }

  function Committed(s: State, t: nat): State
    requires t in s.txs
  {
    s.(world := s.world.(db := Applied(s.world.db, s.txs[t].writes)), txs := s.txs - {t})
  }

  ghost function After(rules: Rules, cat: Catalog, s: State, st: Step): State
    requires Enabled(rules, cat, s, st)
  {
    match st
    case AtNode(i, ns) => s.(nodes := s.nodes[i := NodeAfter(rules, cat, s.world, s.now, s.txs.Keys, s.nodes[i], ns)])
    case Begin(t) => s.(txs := s.txs[t := Tx(map[], {}, None)], begun := s.begun + {t})
    case Write(t, l, row) => s.(txs := s.txs[t := s.txs[t].(writes := s.txs[t].writes[l := row])])
    case Publish(t, keys) =>
      s.(txs := s.txs[t := Published(s.txs[t], keys, s.now)], nodes := ToAll(s.nodes, DelKeys(keys, Some(t))))
    case Commit(t) => Committed(s, t)
    case Rollback(t) => s.(txs := s.txs - {t})
    case Broadcast(m) => s.(nodes := ToAll(s.nodes, m))
    case Tick(d) => s.(now := s.now + d)
    case PutToken(w, id, token) =>
      s.(world := WithToken(s.world, id, token), writers := s.writers[w := id])
    case RemoveToken(w, id) =>
      s.(world := WithoutToken(s.world, id), writers := s.writers[w := id])
    case PublishToken(w) =>
      s.(writers := s.writers - {w}, nodes := ToAll(s.nodes, DelKeys([TokenKey(s.writers[w])], None)))
    case VerifyRead(v, id, i, token) => s.(verifiers := s.verifiers[v := Reading(id, token)])
    case VerifyDecide(v) =>
      var held := Decided(s.policy, s.now, s.verifiers[v].id, s.verifiers[v].token);
      s.(verifiers := if held.Some? then s.verifiers[v := held.value] else s.verifiers - {v})
    case VerifyWrite(v, w) =>
      var h := s.verifiers[v];
      s.(world := if h.Renewing? then WithToken(s.world, h.id, h.token) else WithoutToken(s.world, h.id),
         writers := s.writers[w := h.id], verifiers := s.verifiers - {v})
    case VerifyEnd(v) => s.(verifiers := s.verifiers - {v})
  }

  /**
   What may happen at any time, whatever is under way: time passes, anyone publishes deletions or a
   reset, tokens are written and removed, an open transaction is rolled back without a trace in the
   rows, and a verification, its write refused, ends without a trace in the store.
   */
  lemma OutsideIsFree(rules: Rules, cat: Catalog, s: State, d: nat, keys: seq<Key>, w: nat, id: int, token: Token,
                      t: nat, v: nat)
    ensures Enabled(rules, cat, s, Tick(d))
    ensures Enabled(rules, cat, s, Broadcast(DelAll)) && Enabled(rules, cat, s, Broadcast(DelKeys(keys, None)))
    ensures w !in s.writers ==> Enabled(rules, cat, s, PutToken(w, id, token)) && Enabled(rules, cat, s, RemoveToken(w, id))
    ensures t in s.txs ==> Enabled(rules, cat, s, Rollback(t)) && After(rules, cat, s, Rollback(t)) == s.(txs := s.txs - {t})
    ensures v in s.verifiers ==>
              Enabled(rules, cat, s, VerifyEnd(v)) && After(rules, cat, s, VerifyEnd(v)) == s.(verifiers := s.verifiers - {v})
  {
  }

  /** The state a sequence of steps leads to, if each is enabled in its turn. */
  ghost function Exec(rules: Rules, cat: Catalog, s: State, steps: seq<Step>): Option<State>
    decreases steps
  {
    if steps == [] then Some(s)
    else if !Enabled(rules, cat, s, steps[0]) then None
    else Exec(rules, cat, After(rules, cat, s, steps[0]), steps[1..])
  }

  /** Nodes start with empty caches, over any database whose unique indexes hold. */
  ghost predicate Start(cat: Catalog, s: State) {
    && UniqueDb(cat, s.world.db)
    && s.txs == map[] && s.begun == {} && s.writers == map[] && s.verifiers == map[]
    && forall i | 0 <= i < |s.nodes| :: s.nodes[i] == EMPTY
  }

  ghost predicate Reachable(rules: Rules, cat: Catalog, s: State) {
    exists s0: State, steps: seq<Step> :: Start(cat, s0) && Exec(rules, cat, s0, steps) == Some(s)
  }

  // ---- The invariant ----

  /** The delayed deletions of what an open transaction has published have not started at the node. */
  predicate TxInv(n: Node, t: nat, tx: Tx) {
    forall k: Key :: k in tx.published ==> OwedBy(n, k, t)
  }

  ghost predicate Inv(cat: Catalog, s: State) {
    && UniqueDb(cat, s.world.db)
    && (forall i | 0 <= i < |s.nodes| :: NodeInv(cat, s.world, Marks(s), s.nodes[i]))
    && (forall i, t | 0 <= i < |s.nodes| && t in s.txs :: TxInv(s.nodes[i], t, s.txs[t]))
  }

  lemma StartInv(cat: Catalog, s: State)
    requires Start(cat, s)
    ensures Inv(cat, s)
  {
  }

  lemma AtNodeKeeps(cat: Catalog, s: State, i: nat, ns: NodeStep)
    requires Inv(cat, s) && Enabled(REAL, cat, s, AtNode(i, ns))
    ensures Inv(cat, After(REAL, cat, s, AtNode(i, ns)))
  {
    var s' := After(REAL, cat, s, AtNode(i, ns));
    var n, n' := s.nodes[i], s'.nodes[i];
    NodeStepKeepsInv(cat, s.world, Marks(s), s.now, s.txs.Keys, n, ns);
    assert Marks(s') == Marks(s);
    forall t | t in s.txs ensures TxInv(n', t, s.txs[t]) {
      assert TxInv(n, t, s.txs[t]);
      forall k: Key | k in s.txs[t].published ensures OwedBy(n', k, t) {
        NodeStepKeepsOwedBy(cat, s.world, s.now, s.txs.Keys, n, ns, k, t);
      }
    }
  }

  /** A message to a node keeps its obligations, whatever becomes of the marks it settles. */
  lemma ReceivedKeepsNodeInv(cat: Catalog, w: World, marks: set<int>, marks': set<int>, n: Node, m: Message)
    requires NodeInv(cat, w, marks, n)
    requires forall id | id in marks && id !in marks' :: m.DelKeys? && TokenKey(id) in m.keys
    ensures NodeInv(cat, w, marks', Received(n, m))
  {
    var n' := Received(n, m);
    forall k: Key | Stale(w, n', k) ensures Excused(n', marks', k) {
      assert Stale(w, n, k);
      assert Excused(n, marks, k);
      ReceivedKeeps(n, m, k, 0);
    }
  }

  lemma ReceivedKeepsTxInv(n: Node, t: nat, tx: Tx, m: Message)
    requires TxInv(n, t, tx)
    ensures TxInv(Received(n, m), t, tx)
  {
    forall k: Key | k in tx.published ensures OwedBy(Received(n, m), k, t) {
      ReceivedKeeps(n, m, k, t);
    }
  }

  lemma PublishKeepsTxInv(n: Node, t: nat, tx: Tx, now: int, keys: seq<Key>)
    requires TxInv(n, t, tx)
    ensures TxInv(Received(n, DelKeys(keys, Some(t))), t, Published(tx, keys, now))
  {
    var m := DelKeys(keys, Some(t));
    forall k: Key | k in Published(tx, keys, now).published ensures OwedBy(Received(n, m), k, t) {
      ReceivedKeeps(n, m, k, t);
    }
  }

  lemma MessageKeeps(cat: Catalog, s: State, st: Step)
    requires Inv(cat, s) && Enabled(REAL, cat, s, st)
    requires st.Publish? || st.Broadcast? || st.PublishToken?
    ensures Inv(cat, After(REAL, cat, s, st))
  {
    var s' := After(REAL, cat, s, st);
    var m := match st
      case Publish(t, keys) => DelKeys(keys, Some(t))
      case Broadcast(m) => m
      case PublishToken(w) => DelKeys([TokenKey(s.writers[w])], None);
    assert s'.nodes == ToAll(s.nodes, m);
    forall i | 0 <= i < |s.nodes| ensures NodeInv(cat, s'.world, Marks(s'), s'.nodes[i]) {
      if st.PublishToken? {
        assert forall u | u in s.writers && u != st.writer :: u in s'.writers && s'.writers[u] in Marks(s');
        forall id | id in Marks(s) && id !in Marks(s') ensures TokenKey(id) in m.keys {
          var w :| w in s.writers && s.writers[w] == id;
          assert w == st.writer;
        }
      } else {
        assert Marks(s') == Marks(s);
      }
      ReceivedKeepsNodeInv(cat, s.world, Marks(s), Marks(s'), s.nodes[i], m);
    }
    forall i, t | 0 <= i < |s.nodes| && t in s'.txs ensures TxInv(s'.nodes[i], t, s'.txs[t]) {
      assert TxInv(s.nodes[i], t, s.txs[t]);
      if st.Publish? && t == st.tx {
        PublishKeepsTxInv(s.nodes[i], t, s.txs[t], s.now, st.keys);
      } else {
        ReceivedKeepsTxInv(s.nodes[i], t, s.txs[t], m);
      }
    }
  }

  /** Only rows whose keys are owed everywhere change their answer at a commit. */
  lemma CommitKeeps(cat: Catalog, s: State, t: nat)
    requires Inv(cat, s) && Enabled(REAL, cat, s, Commit(t))
    ensures Inv(cat, After(REAL, cat, s, Commit(t)))
  {
    var s' := After(REAL, cat, s, Commit(t));
    var tx := s.txs[t];
    assert Marks(s') == Marks(s);
    forall i | 0 <= i < |s.nodes| ensures NodeInv(cat, s'.world, Marks(s'), s'.nodes[i]) {
      var n := s.nodes[i];
      assert TxInv(n, t, tx);
      forall k: Key | Stale(s'.world, n, k) ensures Excused(n, Marks(s), k) {
        assert Readable(REAL, cat, k);
        if Truth(s.world, k) == Truth(s'.world, k) {
          assert Stale(s.world, n, k);
        } else {
          CommitChangesOnlyAnnounced(cat, s.world.db, tx.writes, tx.published, k);
          OwedByIsOwed(n, k, t);
        }
      }
    }
  }

  /** The token hash changes under one key, which is marked until it is published. */
  lemma TokenChangeKeeps(cat: Catalog, w: World, w': World, marks: set<int>, marks': set<int>, n: Node, id: int)
    requires NodeInv(cat, w, marks, n)
    requires w'.db == w.db && marks' == marks + {id}
    requires forall j | j != id :: (j in w.tokens <==> j in w'.tokens) && (j in w.tokens ==> w.tokens[j] == w'.tokens[j])
    ensures NodeInv(cat, w', marks', n)
  {
    forall k: Key | Stale(w', n, k) ensures Excused(n, marks', k) {
      if k != TokenKey(id) {
        assert Truth(w', k) == Truth(w, k);
        assert Stale(w, n, k);
        assert Excused(n, marks, k);
      }
    }
  }

  lemma TokenWriteKeeps(cat: Catalog, s: State, st: Step)
    requires Inv(cat, s) && Enabled(REAL, cat, s, st)
    requires st.PutToken? || st.RemoveToken? || st.VerifyWrite?
    ensures Inv(cat, After(REAL, cat, s, st))
  {
    var s' := After(REAL, cat, s, st);
    var id := match st
      case PutToken(_, id, _) => id
      case RemoveToken(_, id) => id
      case VerifyWrite(v, _) => s.verifiers[v].id;
    var w := st.writer;
    assert s'.writers == s.writers[w := id];
    assert Marks(s') == Marks(s) + {id} by {
      forall j | j in Marks(s) + {id} ensures j in Marks(s') {
        if j == id {
          assert s'.writers[w] == id;
        } else {
          var u :| u in s.writers && s.writers[u] == j;
          assert s'.writers[u] == j;
        }
      }
    }
    forall i | 0 <= i < |s.nodes| ensures NodeInv(cat, s'.world, Marks(s'), s'.nodes[i]) {
      TokenChangeKeeps(cat, s.world, s'.world, Marks(s), Marks(s'), s.nodes[i], id);
    }
  }

  /** Every step of the real design keeps the invariant. */
  lemma StepKeepsInv(cat: Catalog, s: State, st: Step)
    requires Inv(cat, s) && Enabled(REAL, cat, s, st)
    ensures Inv(cat, After(REAL, cat, s, st))
  {
    match st
    case AtNode(i, ns) => AtNodeKeeps(cat, s, i, ns);
    case Publish(_, _) => MessageKeeps(cat, s, st);
    case Broadcast(_) => MessageKeeps(cat, s, st);
    case PublishToken(_) => MessageKeeps(cat, s, st);
    case Commit(t) => CommitKeeps(cat, s, t);
    case PutToken(_, _, _) => TokenWriteKeeps(cat, s, st);
    case RemoveToken(_, _) => TokenWriteKeeps(cat, s, st);
    case VerifyWrite(_, _) => TokenWriteKeeps(cat, s, st);
    case Write(t, _, _) => WriteKeeps(cat, s, st);
    case _ => assert Marks(After(REAL, cat, s, st)) == Marks(s);
  }

  lemma WriteKeeps(cat: Catalog, s: State, st: Step)
    requires Inv(cat, s) && Enabled(REAL, cat, s, st) && st.Write?
    ensures Inv(cat, After(REAL, cat, s, st))
  {
  }

  lemma {:induction false} ExecKeepsInv(cat: Catalog, s: State, steps: seq<Step>)
    requires Inv(cat, s) && Exec(REAL, cat, s, steps).Some?
    ensures Inv(cat, Exec(REAL, cat, s, steps).value)
    decreases steps
  {
    if steps != [] {
      StepKeepsInv(cat, s, steps[0]);
      ExecKeepsInv(cat, After(REAL, cat, s, steps[0]), steps[1..]);
    }
  }

  // ---- Main results ----

  lemma ReachableInv(cat: Catalog, s: State)
    requires Reachable(REAL, cat, s)
    ensures Inv(cat, s)
  {
    var s0: State, steps: seq<Step> :| Start(cat, s0) && Exec(REAL, cat, s0, steps) == Some(s);
    StartInv(cat, s0);
    ExecKeepsInv(cat, s0, steps);
  }

  /**
   In every reachable state, a row lookup whose cached or loaded value differs from the
   committed rows has a delayed deletion ahead at that node.
   */
  lemma StaleRowIsOwed(cat: Catalog, s: State, i: nat, table: string, query: Query)
    requires Reachable(REAL, cat, s) && i < |s.nodes|
    requires Stale(s.world, s.nodes[i], RowKey(table, query))
    ensures Owed(s.nodes[i], RowKey(table, query))
  {
    ReachableInv(cat, s);
    assert Excused(s.nodes[i], Marks(s), RowKey(table, query));
  }

  /**
   For tokens one locked deletion is enough: a stale token has an unpublished writer, or a
   first deletion ahead in the queue or in the message being handled.
   */
  lemma StaleTokenIsPending(cat: Catalog, s: State, i: nat, id: int)
    requires Reachable(REAL, cat, s) && i < |s.nodes|
    requires Stale(s.world, s.nodes[i], TokenKey(id))
    ensures (exists w :: w in s.writers && s.writers[w] == id) || Pending(s.nodes[i], TokenKey(id))
  {
    ReachableInv(cat, s);
    assert Excused(s.nodes[i], Marks(s), TokenKey(id));
  }

  /** No message is queued or handled, no deletion is delayed, no writer has yet to publish. */
  predicate Quiet(s: State) {
    && s.writers == map[]
    && forall i | 0 <= i < |s.nodes| :: s.nodes[i].queue == [] && s.nodes[i].handler.None? && s.nodes[i].tasks == map[]
  }

  ghost predicate Coherent(s: State) {
    forall i, k: Key | 0 <= i < |s.nodes| :: !Stale(s.world, s.nodes[i], k)
  }

  /** Once everything has settled, every node agrees with the committed rows and tokens. */
  lemma QuietIsCoherent(cat: Catalog, s: State)
    requires Reachable(REAL, cat, s) && Quiet(s)
    ensures Coherent(s)
  {
    ReachableInv(cat, s);
    assert Marks(s) == {};
    assert forall i, k: Key | 0 <= i < |s.nodes| :: !Excused(s.nodes[i], Marks(s), k);
  }

  // ---- Single flight ----

  /** A key is never cached and being filled at once; this holds under any rules. */
  predicate Exclusive(s: State) {
    forall i | 0 <= i < |s.nodes| :: s.nodes[i].cache.Keys !! s.nodes[i].inflight.Keys
  }

  lemma NodeStepKeepsApart(rules: Rules, cat: Catalog, w: World, now: int, open: set<nat>, n: Node, st: NodeStep)
    requires NodeEnabled(rules, cat, w, now, open, n, st) && n.cache.Keys !! n.inflight.Keys
    ensures var n' := NodeAfter(rules, cat, w, now, open, n, st); n'.cache.Keys !! n'.inflight.Keys
  {
  }

  lemma StepKeepsExclusive(rules: Rules, cat: Catalog, s: State, st: Step)
    requires Exclusive(s) && Enabled(rules, cat, s, st)
    ensures Exclusive(After(rules, cat, s, st)) && |After(rules, cat, s, st).nodes| == |s.nodes|
  {
    if st.AtNode? {
      NodeStepKeepsApart(rules, cat, s.world, s.now, s.txs.Keys, s.nodes[st.node], st.step);
    }
  }

  ghost predicate RemovesAt(rules: Rules, cat: Catalog, s: State, st: Step, i: nat, k: Key) {
    && Enabled(rules, cat, s, st) && i < |s.nodes|
    && k in s.nodes[i].cache
    && k !in After(rules, cat, s, st).nodes[i].cache
  }

  /** The first step of a run, then `p` more. */
  lemma ExecUnrolled(rules: Rules, cat: Catalog, s: State, steps: seq<Step>, p: nat)
    requires p < |steps| && Enabled(rules, cat, s, steps[0])
    ensures Exec(rules, cat, s, steps[..p + 1]) == Exec(rules, cat, After(rules, cat, s, steps[0]), steps[1..][..p])
  {
    assert steps[..p + 1][1..] == steps[1..][..p];
  }

  /** The `p`th step of a run removes `k` at node `i`. */
  ghost predicate RemovesAtStep(rules: Rules, cat: Catalog, s: State, steps: seq<Step>, p: nat, i: nat, k: Key) {
    && p < |steps|
    && Exec(rules, cat, s, steps[..p]).Some?
    && RemovesAt(rules, cat, Exec(rules, cat, s, steps[..p]).value, steps[p], i, k)
  }

  /** A run after which `k` can be stored at node `i`, from a state where it is cached there, removes it. */
  lemma {:induction false} CachedThenStoredIsRemoved(rules: Rules, cat: Catalog, s: State, steps: seq<Step>, i: nat,
                                                     k: Key)
    requires Exclusive(s) && i < |s.nodes| && k in s.nodes[i].cache
    requires Exec(rules, cat, s, steps).Some?
    requires Enabled(rules, cat, Exec(rules, cat, s, steps).value, AtNode(i, Store(k)))
    ensures exists p: nat :: RemovesAtStep(rules, cat, s, steps, p, i, k)
    decreases steps
  {
    assert steps != [];
    var s1 := After(rules, cat, s, steps[0]);
    StepKeepsExclusive(rules, cat, s, steps[0]);
    if k in s1.nodes[i].cache {
      CachedThenStoredIsRemoved(rules, cat, s1, steps[1..], i, k);
      var p: nat :| RemovesAtStep(rules, cat, s1, steps[1..], p, i, k);
      ExecUnrolled(rules, cat, s, steps, p);
      assert RemovesAtStep(rules, cat, s, steps, p + 1, i, k);
    } else {
      assert Exec(rules, cat, s, steps[..0]) == Some(s);
      assert RemovesAtStep(rules, cat, s, steps, 0, i, k);
    }
  }

  /** Between two stores of one key at one node, over any interleaving, the key was removed there. */
  lemma StoresAreSeparated(rules: Rules, cat: Catalog, s: State, steps: seq<Step>, i: nat, k: Key)
    requires Exclusive(s) && Enabled(rules, cat, s, AtNode(i, Store(k)))
    requires Exec(rules, cat, After(rules, cat, s, AtNode(i, Store(k))), steps).Some?
    requires Enabled(rules, cat, Exec(rules, cat, After(rules, cat, s, AtNode(i, Store(k))), steps).value, AtNode(i, Store(k)))
    ensures exists p: nat :: RemovesAtStep(rules, cat, After(rules, cat, s, AtNode(i, Store(k))), steps, p, i, k)
  {
    StepKeepsExclusive(rules, cat, s, AtNode(i, Store(k)));
    CachedThenStoredIsRemoved(rules, cat, After(rules, cat, s, AtNode(i, Store(k))), steps, i, k);
  }

  // ---- Logout ----

  /** No trace of a token is left: not stored, not served anywhere, not held by a verification. */
  predicate LoggedOut(s: State, id: int) {
    && id !in s.world.tokens
    && (forall v | v in s.verifiers :: s.verifiers[v].id != id)
    && forall i | 0 <= i < |s.nodes| :: !Serves(s.nodes[i], TokenKey(id))
  }

  /** What a caller of logout has to wait for: its publication handled, older verifications ended. */
  predicate LogoutSettled(s: State, id: int) {
    && id !in s.world.tokens
    && id !in Marks(s)
    && (forall v | v in s.verifiers :: s.verifiers[v].id != id)
    && forall i | 0 <= i < |s.nodes| :: !Pending(s.nodes[i], TokenKey(id))
  }

  lemma SettledIsLoggedOut(cat: Catalog, s: State, id: int)
    requires Reachable(REAL, cat, s) && LogoutSettled(s, id)
    ensures LoggedOut(s, id)
  {
    ReachableInv(cat, s);
    forall i | 0 <= i < |s.nodes| ensures !Serves(s.nodes[i], TokenKey(id)) {
      assert !Excused(s.nodes[i], Marks(s), TokenKey(id));
      assert !Stale(s.world, s.nodes[i], TokenKey(id));
    }
  }

  predicate LogsIn(st: Step, id: int) {
    st.PutToken? && st.id == id
  }

  /** A node that serves no token for `id` comes to serve one only if the store has it. */
  lemma NodeStepKeepsUnserved(cat: Catalog, w: World, now: int, open: set<nat>, n: Node, st: NodeStep, id: int)
    requires NodeEnabled(REAL, cat, w, now, open, n, st)
    requires id !in w.tokens && !Serves(n, TokenKey(id))
    ensures !Serves(NodeAfter(REAL, cat, w, now, open, n, st), TokenKey(id))
  {
  }

  lemma StepKeepsLoggedOut(cat: Catalog, s: State, st: Step, id: int)
    requires LoggedOut(s, id) && Enabled(REAL, cat, s, st) && !LogsIn(st, id)
    ensures LoggedOut(After(REAL, cat, s, st), id)
  {
    if st.AtNode? {
      NodeStepKeepsUnserved(cat, s.world, s.now, s.txs.Keys, s.nodes[st.node], st.step, id);
    } else {
      var s' := After(REAL, cat, s, st);
      forall i | 0 <= i < |s'.nodes| ensures !Serves(s'.nodes[i], TokenKey(id)) {
        assert !Serves(s.nodes[i], TokenKey(id));
      }
    }
  }

  /** Once a logout has settled, the token stays out of the store and of every node until a login. */
  lemma {:induction false} LoggedOutIsFinal(cat: Catalog, s: State, steps: seq<Step>, id: int)
    requires LoggedOut(s, id) && Exec(REAL, cat, s, steps).Some?
    requires forall j | 0 <= j < |steps| :: !LogsIn(steps[j], id)
    ensures LoggedOut(Exec(REAL, cat, s, steps).value, id)
    decreases steps
  {
    if steps != [] {
      StepKeepsLoggedOut(cat, s, steps[0], id);
      LoggedOutIsFinal(cat, After(REAL, cat, s, steps[0]), steps[1..], id);
    }
  }

  /** A logout that has settled holds over every continuation without a login. */
  lemma LogoutIsFinal(cat: Catalog, s: State, steps: seq<Step>, id: int)
    requires Reachable(REAL, cat, s) && LogoutSettled(s, id)
    requires Exec(REAL, cat, s, steps).Some?
    requires forall j | 0 <= j < |steps| :: !LogsIn(steps[j], id)
    ensures LoggedOut(Exec(REAL, cat, s, steps).value, id)
  {
    SettledIsLoggedOut(cat, s, id);
    LoggedOutIsFinal(cat, s, steps, id);
  }
}
