/**
 Runs that settle with a node left wrong for good. Each breaks exactly one rule of the
 coherence theorem, so each rule is needed.
 */
module CoherenceNeeds {
  import opened CacheNode
  import opened Coherence
  import opened Rows
  import opened Runs
  import opened Wrappers

  function OneNode(db: Database): State {
    State(World(db, map[]), Policy(0, 0), map[], {}, map[], map[], [EMPTY], 0)
  }

  /** A run from `s` that settles and leaves the first node wrong about `k`. */
  ghost predicate StaysWrong(rules: Rules, cat: Catalog, s: State, k: Key) {
    exists s': State ::
      Leads(rules, cat, ANY, s, s') && s'.txs == map[] && Quiet(s') && s'.nodes != [] && Stale(s'.world, s'.nodes[0], k)
  }

  /** A run from empty caches that settles and leaves a node wrong. */
  ghost predicate GoesWrong(rules: Rules) {
    exists cat: Catalog, s0: State, k: Key :: Start(cat, s0) && StaysWrong(rules, cat, s0, k)
  }

  // ---- Common stretches of a run at a single node ----

  /** Nothing is under way at the node. */
  predicate IdleAt(s: State, i: nat) {
    && i < |s.nodes| && s.nodes[i].queue == [] && s.nodes[i].handler.None? && s.nodes[i].tasks == map[]
    && s.nodes[i].inflight == map[]
  }

  /** One node, with nothing under way there or elsewhere. */
  predicate Idle(s: State) {
    s.txs == map[] && s.writers == map[] && |s.nodes| == 1 && IdleAt(s, 0)
  }

  lemma WriteRow(rules: Rules, cat: Catalog, s0: State, s: State, t: nat, l: Loc, change: Option<Row>)
    returns (s': State)
    requires Leads(rules, cat, ANY, s0, s) && t !in s.txs && t !in s.begun
    ensures Leads(rules, cat, ANY, s0, s')
    ensures s' == s.(txs := s.txs[t := Tx(map[l := change], {}, None)], begun := s.begun + {t})
  {
    var a := Step1(rules, cat, ANY, s0, s, Begin(t));
    s' := Step1(rules, cat, ANY, s0, a, Write(t, l, change));
    assert s'.txs[t].writes == map[l := change];
  }

  /** Transaction `t` makes one change and publishes some keys. */
  lemma WriteAndPublish(rules: Rules, cat: Catalog, s0: State, s: State, t: nat, l: Loc, change: Option<Row>,
                        keys: seq<Key>) returns (s': State)
    requires Leads(rules, cat, ANY, s0, s) && t !in s.txs && t !in s.begun
    ensures Leads(rules, cat, ANY, s0, s')
    ensures s' == s.(nodes := ToAll(s.nodes, DelKeys(keys, Some(t))), begun := s.begun + {t},
                     txs := s.txs[t := Tx(map[l := change], (set k | k in keys), Some(s.now))])
    ensures |s.nodes| == 1 ==> s'.nodes == [Received(s.nodes[0], DelKeys(keys, Some(t)))]
  {
    var a := WriteRow(rules, cat, s0, s, t, l, change);
    s' := Step1(rules, cat, ANY, s0, a, Publish(t, keys));
    assert {} + (set k | k in keys) == (set k | k in keys);
  }

  /** Transaction `t`, the only one, commits. */
  lemma CommitOnly(rules: Rules, cat: Catalog, s0: State, s: State, t: nat) returns (s': State)
    requires Leads(rules, cat, ANY, s0, s) && s.txs.Keys == {t} && Committable(rules, cat, s.world.db, s.txs[t])
    ensures Leads(rules, cat, ANY, s0, s')
    ensures s' == Committed(s, t) && s'.txs == map[]
  {
    s' := Step1(rules, cat, ANY, s0, s, Commit(t));
  }

  lemma WrongAt(rules: Rules, cat: Catalog, s0: State, s: State, k: Key)
    requires Leads(rules, cat, ANY, s0, s) && Idle(s)
    requires k in s.nodes[0].cache && k !in s.nodes[0].inflight && s.nodes[0].cache[k] != Truth(s.world, k)
    ensures StaysWrong(rules, cat, s0, k)
  {
    assert Stale(s.world, s.nodes[0], k);
    StaleStays(rules, cat, s0, s, k);
  }

  /** A read-through of a key at an idle node, whether or not it is cached before. */
  lemma Refill(rules: Rules, cat: Catalog, s0: State, s: State, i: nat, k: Key) returns (s': State)
    requires Leads(rules, cat, ANY, s0, s) && IdleAt(s, i) && Readable(rules, cat, k)
    ensures Leads(rules, cat, ANY, s0, s')
    ensures s' == With(s, i, s.nodes[i].(cache := s.nodes[i].cache[k := Truth(s.world, k)]))
  {
    var a := NodeStep1(rules, cat, ANY, s0, s, i, Evict(k));
    s' := Fill(rules, cat, ANY, s0, a, i, k);
    assert (s.nodes[i].cache - {k})[k := Truth(s.world, k)] == s.nodes[i].cache[k := Truth(s.world, k)];
  }

  /** With one message to handle, a wrong entry that it does not name outlasts it. */
  lemma IsNotCorrected(rules: Rules, cat: Catalog, s: State, i: nat, keys: seq<Key>, t: nat, k: Key)
    returns (s': State)
    requires i < |s.nodes| && s.nodes[i].queue == [DelKeys(keys, Some(t))] && t !in s.txs
    requires s.nodes[i].handler.None? && s.nodes[i].tasks == map[] && s.nodes[i].inflight == map[]
    requires k !in keys && k in s.nodes[i].cache && s.nodes[i].cache[k] != Truth(s.world, k)
    ensures Leads(rules, cat, ANY, s, s') && IdleAt(s', i) && Stale(s'.world, s'.nodes[i], k)
    ensures s' == With(s, i, s'.nodes[i]).(now := s'.now)
  {
    Here(rules, cat, ANY, s);
    assert s.nodes[i].queue == [DelKeys(keys, Some(t))] + [];
    s' := Settle(rules, cat, ANY, s, s, i, keys, Some(t), []);
  }

  /**
   From any state with an idle node, a key that a transaction changes without publishing it can
   be cached there before the commit; whatever lets the commit happen, it is then not corrected
   by what the transaction has published. Nothing else in the system matters.
   */
  lemma UnpublishedIsKept(rules: Rules, cat: Catalog, s: State, i: nat, t: nat, l: Loc, change: Option<Row>, k: Key,
                          keys: seq<Key>)
    returns (before: State, after: State)
    requires IdleAt(s, i) && t !in s.txs && t !in s.begun && k.RowKey? && k !in keys && Readable(rules, cat, k)
    requires Lookup(s.world.db, k) != Lookup(Applied(s.world.db, map[l := change]), k)
    ensures Leads(rules, cat, ANY, s, before)
    ensures before == s.(txs := s.txs[t := Tx(map[l := change], (set j | j in keys), Some(s.now))],
                         begun := s.begun + {t}, nodes := before.nodes)
    ensures |before.nodes| == |s.nodes| && k in before.nodes[i].cache
            && before.nodes[i].cache[k] == Truth(s.world, k)
    ensures Leads(rules, cat, ANY, Committed(before, t), after)
    ensures IdleAt(after, i) && Stale(after.world, after.nodes[i], k)
    ensures after == Committed(before, t).(nodes := after.nodes, now := after.now) && |after.nodes| == |s.nodes|
  {
    Here(rules, cat, ANY, s);
    var a := Refill(rules, cat, s, s, i, k);
    before := WriteAndPublish(rules, cat, s, a, t, l, change, keys);
    after := IsNotCorrected(rules, cat, Committed(before, t), i, keys, t, k);
  }

  /** A run from `s` leaves the node idle and wrong about `k`. */
  ghost predicate EndsWrong(rules: Rules, cat: Catalog, s: State, i: nat, k: Key) {
    exists s': State :: Leads(rules, cat, ANY, s, s') && IdleAt(s', i) && Stale(s'.world, s'.nodes[i], k)
  }

  lemma UnpublishedLeads(rules: Rules, cat: Catalog, s: State, i: nat, t: nat, l: Loc, change: Option<Row>, k: Key,
                         keys: seq<Key>) returns (after: State)
    requires IdleAt(s, i) && t !in s.txs && t !in s.begun && k.RowKey? && k !in keys && Readable(rules, cat, k)
    requires Committable(rules, cat, s.world.db, Tx(map[l := change], (set j | j in keys), Some(s.now)))
    requires Lookup(s.world.db, k) != Lookup(Applied(s.world.db, map[l := change]), k)
    ensures Leads(rules, cat, ANY, s, after) && IdleAt(after, i) && Stale(after.world, after.nodes[i], k)
    ensures Idle(s) ==> Idle(after)
  {
    var before;
    before, after := UnpublishedIsKept(rules, cat, s, i, t, l, change, k, keys);
    var c := Step1(rules, cat, ANY, s, before, Commit(t));
    assert s.txs == map[] ==> c.txs == map[];
    Onward(rules, cat, ANY, s, c, after);
  }

  /** If the rules let it commit the node ends wrong, and if nothing else is under way the system settles so. */
  lemma UnpublishedStaysWrong(rules: Rules, cat: Catalog, s: State, i: nat, t: nat, l: Loc, change: Option<Row>, k: Key,
                              keys: seq<Key>)
    requires IdleAt(s, i) && t !in s.txs && t !in s.begun && k.RowKey? && k !in keys && Readable(rules, cat, k)
    requires Committable(rules, cat, s.world.db, Tx(map[l := change], (set j | j in keys), Some(s.now)))
    requires Lookup(s.world.db, k) != Lookup(Applied(s.world.db, map[l := change]), k)
    ensures EndsWrong(rules, cat, s, i, k)
    ensures Idle(s) ==> StaysWrong(rules, cat, s, k)
  {
    var after := UnpublishedLeads(rules, cat, s, i, t, l, change, k, keys);
    if Idle(s) { StaleStays(rules, cat, s, after, k); }
  }

  lemma UnpublishedGoesWrong(rules: Rules, cat: Catalog, db: Database, l: Loc, change: Option<Row>, k: Key, key: Key)
    requires k.RowKey? && k != key && Readable(rules, cat, k) && UniqueDb(cat, db)
    requires Committable(rules, cat, db, Tx(map[l := change], {key}, Some(0)))
    requires Lookup(db, k) != Lookup(Applied(db, map[l := change]), k)
    ensures GoesWrong(rules)
  {
    var s0 := OneNode(db);
    assert (set j | j in [key]) == {key};
    assert Start(cat, s0) && Idle(s0);
    UnpublishedStaysWrong(rules, cat, s0, 0, 0, l, change, k, [key]);
  }

  lemma StaleStays(rules: Rules, cat: Catalog, s: State, s': State, k: Key)
    requires Leads(rules, cat, ANY, s, s') && Idle(s') && Stale(s'.world, s'.nodes[0], k)
    ensures StaysWrong(rules, cat, s, k)
  {
    assert Quiet(s');
  }

  // ---- The example: one table, one row with id 1 ----

  const ROW: Row := map["id" := Num(1)]
  const AT := Loc("t", 1)
  const BYID := RowKey("t", map["id" := Num(1)])
  const CAT: Catalog := map["t" := Schema({"id"}, {})]

  lemma ByIdIsOnlyKey(k: Key)
    requires CoveredKey(CAT, k) && Answers(k, AT, ROW)
    ensures k == BYID
  {
  }

  lemma ByIdFacts()
    ensures CoveredKey(CAT, BYID) && Answers(BYID, AT, ROW)
    ensures Applied(map[], map[AT := Some(ROW)]) == map[AT := ROW]
    ensures UniqueDb(CAT, map[]) && UniqueDb(CAT, map[AT := ROW])
    ensures Lookup(map[], BYID) == NullBlob
    ensures Lookup(map[AT := ROW], BYID) == RowBlob(ROW)
    ensures Announced(CAT, AT, ROW, {BYID})
  {
    assert BYID.query.Keys == {"id"};
    var db: Database := map[AT := ROW];
    assert AT in db;
    forall k: Key | CoveredKey(CAT, k) && Answers(k, AT, ROW) ensures k == BYID { ByIdIsOnlyKey(k); }
    LookupFinds(CAT, db, BYID, AT);
  }

  lemma CommitRow(rules: Rules, s0: State, s: State) returns (s': State)
    requires Leads(rules, CAT, ANY, s0, s) && s.world.db == map[]
    requires s.txs.Keys == {0} && s.txs[0].writes == map[AT := Some(ROW)] && s.txs[0].published == {BYID}
    ensures Leads(rules, CAT, ANY, s0, s')
    ensures s' == s.(world := World(map[AT := ROW], s.world.tokens), txs := map[])
  {
    ByIdFacts();
    s' := CommitOnly(rules, CAT, s0, s, 0);
  }

  /** The written row's key is handled and deleted, cached before or not. */
  lemma SettleRow(rules: Rules, s0: State, s: State) returns (s': State)
    requires Leads(rules, CAT, ANY, s0, s) && |s.nodes| == 1
    requires s.nodes[0].queue == [DelKeys([BYID], Some(0))] && s.nodes[0].handler.None? && s.nodes[0].tasks == map[]
    requires Free(rules, s.nodes[0], BYID)
    requires rules.timely && rules.delayed ==> 0 !in s.txs
    ensures Leads(rules, CAT, ANY, s0, s')
    ensures s' == With(s, 0, s.nodes[0].(cache := s.nodes[0].cache - {BYID}, queue := [])).(now := s'.now)
  {
    assert s.nodes[0].queue == [DelKeys([BYID], Some(0))] + [];
    s' := Settle(rules, CAT, ANY, s0, s, 0, [BYID], Some(0), []);
    assert Dropped(s.nodes[0].cache, [BYID]) == s.nodes[0].cache - {BYID};
  }

  /** Without the delayed deletion, a fill between the deletion and the commit stays wrong. */
  lemma NeedsSecondDelete()
    ensures GoesWrong(REAL.(delayed := false))
  {
    FilledTooEarly(REAL.(delayed := false));
  }

  /** A fill between the last deletion and the commit, where a transaction may outlive that deletion. */
  lemma FilledTooEarly(r: Rules)
    requires !(r.timely && r.delayed) && r.whole
    ensures GoesWrong(r)
  {
    ByIdFacts();
    var s0 := OneNode(map[]);
    Here(r, CAT, ANY, s0);
    var a := WriteAndPublish(r, CAT, s0, s0, 0, AT, Some(ROW), [BYID]);
    var b := SettleRow(r, s0, a);
    FilledBeforeCommit(r, s0, b);
  }

  lemma FilledBeforeCommit(r: Rules, s0: State, s: State)
    requires s0 == OneNode(map[]) && Leads(r, CAT, ANY, s0, s) && r.whole
    requires s.world.db == map[] && s.writers == map[] && s.nodes == [EMPTY]
    requires s.txs.Keys == {0} && s.txs[0].writes == map[AT := Some(ROW)] && s.txs[0].published == {BYID}
    ensures GoesWrong(r)
  {
    ByIdFacts();
    var a := Fill(r, CAT, ANY, s0, s, 0, BYID);
    var b := CommitRow(r, s0, a);
    WrongAt(r, CAT, s0, b, BYID);
  }

  /** If deletion did not wait for the lock, a slow fill would outlast both deletions. */
  lemma NeedsLock()
    ensures GoesWrong(REAL.(locked := false))
  {
    var r := REAL.(locked := false);
    ByIdFacts();
    var s0, a := SlowFill(r);
    var b := WriteAndPublish(r, CAT, s0, a, 0, AT, Some(ROW), [BYID]);
    var c := CommitRow(r, s0, b);
    var d := SettleRow(r, s0, c);
    StoreLate(r, s0, d);
  }

  lemma SlowFill(r: Rules) returns (s0: State, s: State)
    requires r.whole
    ensures s0 == OneNode(map[]) && Leads(r, CAT, ANY, s0, s)
    ensures s == s0.(nodes := [EMPTY.(inflight := map[BYID := Some(NullBlob)])])
  {
    ByIdFacts();
    s0 := OneNode(map[]);
    Here(r, CAT, ANY, s0);
    s := Load(r, CAT, ANY, s0, s0, 0, BYID);
    assert s.nodes == [EMPTY.(inflight := map[BYID := Some(NullBlob)])];
  }

  lemma StoreLate(r: Rules, s0: State, s: State)
    requires s0 == OneNode(map[]) && Leads(r, CAT, ANY, s0, s)
    requires s.world.db == map[AT := ROW] && s.txs == map[] && s.writers == map[] && |s.nodes| == 1
    requires s.nodes[0] == EMPTY.(inflight := map[BYID := Some(NullBlob)])
    ensures GoesWrong(r)
  {
    ByIdFacts();
    var e := NodeStep1(r, CAT, ANY, s0, s, 0, Store(BYID));
    assert e.nodes[0].inflight == map[];
    WrongAt(r, CAT, s0, e, BYID);
  }

  /** A transaction that outlives its own delayed deletion leaves a later fill wrong. */
  lemma NeedsTimeliness()
    ensures GoesWrong(REAL.(timely := false))
  {
    FilledTooEarly(REAL.(timely := false));
  }

  /** A restore of anything but the committed row is never corrected. */
  lemma NeedsCommittedRestore()
    ensures GoesWrong(REAL.(committed := false))
  {
    var r := REAL.(committed := false);
    ByIdFacts();
    var s0 := OneNode(map[]);
    Here(r, CAT, ANY, s0);
    var a := NodeStep1(r, CAT, ANY, s0, s0, 0, Restore(BYID, RowBlob(ROW)));
    WrongAt(r, CAT, s0, a, BYID);
  }

  // ---- A reader that gives one column of a two-column index ----

  const WIDECAT: Catalog := map["t" := Schema({}, {{"a", "b"}})]
  const WIDEROW: Row := map["a" := Num(1), "b" := Num(2)]
  const WIDEKEY := RowKey("t", map["a" := Num(1), "b" := Num(2)])
  const PARTKEY := RowKey("t", map["a" := Num(1)])

  lemma WideFacts()
    ensures Applied(map[], map[AT := Some(WIDEROW)]) == map[AT := WIDEROW]
    ensures UniqueDb(WIDECAT, map[]) && UniqueDb(WIDECAT, map[AT := WIDEROW])
    ensures Announced(WIDECAT, AT, WIDEROW, {WIDEKEY})
    ensures Lookup(map[], PARTKEY) == NullBlob && Lookup(map[AT := WIDEROW], PARTKEY) != NullBlob
  {
    forall k: Key | CoveredKey(WIDECAT, k) && Answers(k, AT, WIDEROW) ensures k == WIDEKEY {
      assert k.query.Keys == {"a", "b"};
      assert "a" in k.query && "b" in k.query;
      assert k.query == map["a" := Num(1), "b" := Num(2)];
    }
    var db: Database := map[AT := WIDEROW];
    assert AT in db && Answers(PARTKEY, AT, db[AT]);
  }

  /** A lookup by part of a compound index is in no row's key list. */
  lemma NeedsWholeIndexes()
    ensures GoesWrong(REAL.(whole := false))
  {
    var r := REAL.(whole := false);
    WideFacts();
    assert "b" in WIDEKEY.query && "b" !in PARTKEY.query;
    UnpublishedGoesWrong(r, WIDECAT, map[], AT, Some(WIDEROW), PARTKEY, WIDEKEY);
  }

  // ---- An update that changes a unique column ----

  const NAMECAT: Catalog := map["t" := Schema({"name"}, {})]
  const OLDROW: Row := map["name" := Text("a")]
  const NEWROW: Row := map["name" := Text("b")]
  const OLDKEY := RowKey("t", map["name" := Text("a")])
  const NEWKEY := RowKey("t", map["name" := Text("b")])

  lemma NameFacts()
    ensures Applied(map[AT := OLDROW], map[AT := Some(NEWROW)]) == map[AT := NEWROW]
    ensures UniqueDb(NAMECAT, map[AT := OLDROW]) && UniqueDb(NAMECAT, map[AT := NEWROW])
    ensures Announced(NAMECAT, AT, NEWROW, {NEWKEY})
    ensures CoveredKey(NAMECAT, OLDKEY)
    ensures Lookup(map[AT := OLDROW], OLDKEY) == RowBlob(OLDROW) && Lookup(map[AT := NEWROW], OLDKEY) == NullBlob
  {
    forall k: Key | CoveredKey(NAMECAT, k) && Answers(k, AT, NEWROW) ensures k == NEWKEY {
      assert k.query.Keys == {"name"};
      assert "name" in k.query;
      assert k.query == map["name" := Text("b")];
    }
    assert OLDKEY.query.Keys == {"name"};
    var db: Database := map[AT := OLDROW];
    assert AT in db && Answers(OLDKEY, AT, db[AT]);
    LookupFinds(NAMECAT, db, OLDKEY, AT);
    assert "name" in OLDKEY.query && !Answers(OLDKEY, AT, NEWROW);
  }

  /** An update publishes the new row's keys only, so a changed unique column leaves the old key wrong. */
  lemma NeedsStableKeys()
    ensures GoesWrong(REAL.(announced := false))
  {
    var r := REAL.(announced := false);
    NameFacts();
    assert OLDKEY.query["name"] != NEWKEY.query["name"];
    UnpublishedGoesWrong(r, NAMECAT, map[AT := OLDROW], AT, Some(NEWROW), OLDKEY, NEWKEY);
  }
}
