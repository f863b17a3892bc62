/**
 Sessions against the caches: the effects of a call are steps of the system, and its commit is
 safe exactly when the keys it published are those of the rows it changed.
 */
module SessionSafety {
  import opened CacheNode
  import opened Coherence
  import opened CoherenceNeeds
  import opened Rows
  import opened Runs
  import opened Session
  import opened Wrappers

  function KeysFor(table: string, qs: set<Query>): set<Key> {
    set q | q in qs :: RowKey(table, q)
  }

  /** Publishing a row's lookups announces a row in its place exactly when they agree on the latter's key columns. */
  lemma AnnouncesIff(cat: Catalog, l: Loc, bean: Row, row: Row)
    requires l.table in cat
    ensures Announced(cat, l, row, KeysFor(l.table, QueriesOf(cat[l.table], bean)))
            <==> SameKeyColumns(cat[l.table], bean, row)
  {
    var sch := cat[l.table];
    var published := KeysFor(l.table, QueriesOf(sch, bean));
    PublishReachesRowIff(sch, bean, row);
    if Announced(cat, l, row, published) {
      forall q: Query | Exact(sch, q) && Matches(q, row) ensures q in QueriesOf(sch, bean) {
        assert CoveredKey(cat, RowKey(l.table, q)) && Answers(RowKey(l.table, q), l, row);
      }
    }
  }

  /** The rows a change at `l` touches, old and new, have the key columns of `row`. */
  predicate KeepsKeys(cat: Catalog, db: Database, l: Loc, row: Row, change: Option<Row>)
    requires l.table in cat
  {
    && (l in db ==> SameKeyColumns(cat[l.table], row, db[l]))
    && (change.Some? ==> SameKeyColumns(cat[l.table], row, change.value))
  }

  lemma CommittableIff(cat: Catalog, db: Database, l: Loc, row: Row, change: Option<Row>, since: Option<int>)
    requires l.table in cat && UniqueDb(cat, Applied(db, map[l := change]))
    ensures Committable(REAL, cat, db, Tx(map[l := change], KeysFor(l.table, QueriesOf(cat[l.table], row)), since))
            <==> KeepsKeys(cat, db, l, row, change)
  {
    if l in db { AnnouncesIff(cat, l, row, db[l]); }
    if change.Some? { AnnouncesIff(cat, l, row, change.value); }
  }

  // ---- The effects of a call as steps of the system ----

  /** What an update of some columns makes of the stored row; columns the bean lacks become zero. */
  function Updated(before: Row, row: Row, columns: Option<set<string>>): Row {
    match columns
    case None => row
    case Some(cs) => (before - cs) + map c | c in cs && c in row :: row[c]
  }

  /** Column by column: those named, or all if none are, get what the session knows, the others stay. */
  lemma UpdatedIs(before: Row, row: Row, columns: Option<set<string>>, c: string)
    ensures var (after, from) := (Updated(before, row, columns), if columns.None? || c in columns.value then row else before);
            (c in after <==> c in from) && (c in after ==> after[c] == from[c])
  {
  }

  function ChangeOf(db: Database, l: Loc, e: Effect): Option<Row>
    requires e.Wrote?
  {
    if e.op == Removal then None
    else if l in db then Some(Updated(db[l], e.row, e.columns))
    else Some(e.row)
  }

  /** A sequence of the members of a set. */
  ghost function Listed<T(!new)>(xs: set<T>): (r: seq<T>)
    ensures forall x :: x in r <==> x in xs
  {
    if xs == {} then []
    else
      var x :| x in xs;
      [x] + Listed(xs - {x})
  }

  /** The system's steps for one effect; `l` is where the row written is or will be, `t` the transaction. */
  ghost function StepsFor(t: nat, l: Loc, db: Database, e: Effect): seq<Step> {
    match e
    case Began => [Begin(t)]
    case Wrote(_, _, _, _) => [Step.Write(t, l, ChangeOf(db, l, e))]
    case Published(qs) => [Step.Publish(t, Listed(KeysFor(l.table, qs)))]
    case Committed => [Step.Commit(t)]
    case RolledBack => [Step.Rollback(t)]
    case _ => []
  }

  ghost function StepsOf(t: nat, l: Loc, db: Database, tr: seq<Effect>): seq<Step> {
    if tr == [] then [] else StepsFor(t, l, db, tr[0]) + StepsOf(t, l, db, tr[1..])
  }

  function WriteOf(l: Loc, db: Database, e: Effect): map<Loc, Option<Row>> {
    if e.Wrote? then map[l := ChangeOf(db, l, e)] else map[]
  }

  function WritesOf(l: Loc, db: Database, tr: seq<Effect>): map<Loc, Option<Row>> {
    if tr == [] then map[] else WriteOf(l, db, tr[0]) + WritesOf(l, db, tr[1..])
  }

  /** The keys of each publication, in order. */
  function PublishOf(table: string, e: Effect): seq<set<Key>> {
    if e.Published? then [KeysFor(table, e.keys)] else []
  }

  function PublishedOf(table: string, tr: seq<Effect>): seq<set<Key>> {
    if tr == [] then [] else PublishOf(table, tr[0]) + PublishedOf(table, tr[1..])
  }

  function Union(sets: seq<set<Key>>): set<Key> {
    if sets == [] then {} else sets[0] + Union(sets[1..])
  }

  lemma {:induction false} UnionAppend(a: seq<set<Key>>, b: seq<set<Key>>)
    ensures Union(a + b) == Union(a) + Union(b)
  {
    if a == [] {
      assert a + b == b;
    } else {
      assert (a + b)[1..] == a[1..] + b;
      UnionAppend(a[1..], b);
    }
  }

  ghost function MessageOf(t: nat, keys: set<Key>): Message {
    DelKeys(Listed(keys), Some(t))
  }

  /** Every node has been sent a message for each publication. */
  ghost function Sent(nodes: seq<Node>, t: nat, sets: seq<set<Key>>): seq<Node>
    decreases sets
  {
    if sets == [] then nodes else Sent(ToAll(nodes, MessageOf(t, sets[0])), t, sets[1..])
  }

  lemma {:induction false} SentAppend(nodes: seq<Node>, t: nat, a: seq<set<Key>>, b: seq<set<Key>>)
    ensures Sent(nodes, t, a + b) == Sent(Sent(nodes, t, a), t, b)
    decreases a
  {
    if a == [] {
      assert a + b == b;
    } else {
      assert (a + b)[1..] == a[1..] + b;
      SentAppend(ToAll(nodes, MessageOf(t, a[0])), t, a[1..], b);
    }
  }

  lemma SentOnce(nodes: seq<Node>, t: nat, keys: set<Key>)
    ensures Sent(nodes, t, [keys]) == ToAll(nodes, MessageOf(t, keys)) && Union([keys]) == keys
  {
    assert [keys][1..] == [];
  }

  /** The body of a call neither begins nor ends a transaction. */
  predicate Inner(tr: seq<Effect>) {
    forall e | e in tr :: e != Began && e != Effect.Committed && e != RolledBack
  }

  predicate Grows(tx: Tx, writes: map<Loc, Option<Row>>, keys: seq<set<Key>>, tx': Tx) {
    tx'.writes == tx.writes + writes && tx'.published == tx.published + Union(keys)
  }

  lemma GrowsInTurn(tx: Tx, w: map<Loc, Option<Row>>, k: seq<set<Key>>, tx': Tx,
                    w': map<Loc, Option<Row>>, k': seq<set<Key>>, tx'': Tx)
    requires Grows(tx, w, k, tx') && Grows(tx', w', k', tx'')
    ensures Grows(tx, w + w', k + k', tx'')
  {
    UnionAppend(k, k');
    assert tx.writes + w + w' == tx.writes + (w + w');
  }

  /** `s'` is `s` after transaction `t` has written and published more, with the messages on their way. */
  ghost predicate Advances(s: State, t: nat, writes: map<Loc, Option<Row>>, keys: seq<set<Key>>, s': State) {
    && t in s.txs && t in s'.txs
    && s' == s.(txs := s.txs[t := s'.txs[t]], nodes := Sent(s.nodes, t, keys))
    && Grows(s.txs[t], writes, keys, s'.txs[t])
  }

  lemma EffectAdvances(rules: Rules, cat: Catalog, s: State, t: nat, l: Loc, db: Database, e: Effect)
    returns (s': State)
    requires t in s.txs && e != Began && e != Effect.Committed && e != RolledBack
    ensures Exec(rules, cat, s, StepsFor(t, l, db, e)) == Some(s')
    ensures Advances(s, t, WriteOf(l, db, e), PublishOf(l.table, e), s')
  {
    if e.Wrote? {
      var st := Step.Write(t, l, ChangeOf(db, l, e));
      ExecOne(rules, cat, s, st);
      s' := After(rules, cat, s, st);
      assert s.txs[t].writes[l := ChangeOf(db, l, e)] == s.txs[t].writes + map[l := ChangeOf(db, l, e)];
    } else if e.Published? {
      var keys := Listed(KeysFor(l.table, e.keys));
      ExecOne(rules, cat, s, Step.Publish(t, keys));
      s' := After(rules, cat, s, Step.Publish(t, keys));
      assert (set k | k in keys) == KeysFor(l.table, e.keys);
      SentOnce(s.nodes, t, KeysFor(l.table, e.keys));
    } else {
      s' := s;
      assert s.txs[t := s.txs[t]] == s.txs;
    }
  }

  lemma AdvancesInTurn(s: State, t: nat, w: map<Loc, Option<Row>>, k: seq<set<Key>>, a: State,
                       w': map<Loc, Option<Row>>, k': seq<set<Key>>, b: State)
    requires Advances(s, t, w, k, a) && Advances(a, t, w', k', b)
    ensures Advances(s, t, w + w', k + k', b)
  {
    var tx, ta, tb := s.txs[t], a.txs[t], b.txs[t];
    GrowsInTurn(tx, w, k, ta, w', k', tb);
    SentAppend(s.nodes, t, k, k');
    assert a.txs[t := tb] == s.txs[t := tb] by { assert s.txs[t := ta][t := tb] == s.txs[t := tb]; }
  }

  lemma {:induction false} BodyAdvances(rules: Rules, cat: Catalog, s: State, t: nat, l: Loc, db: Database,
                                        tr: seq<Effect>)
    returns (s': State)
    requires t in s.txs && Inner(tr)
    ensures Exec(rules, cat, s, StepsOf(t, l, db, tr)) == Some(s')
    ensures Advances(s, t, WritesOf(l, db, tr), PublishedOf(l.table, tr), s')
    decreases tr
  {
    if tr == [] {
      s' := s;
      assert s.txs[t := s.txs[t]] == s.txs;
    } else {
      assert tr[0] in tr && forall e | e in tr[1..] :: e in tr;
      var a := EffectAdvances(rules, cat, s, t, l, db, tr[0]);
      s' := BodyAdvances(rules, cat, a, t, l, db, tr[1..]);
      ExecAppend(rules, cat, s, StepsFor(t, l, db, tr[0]), StepsOf(t, l, db, tr[1..]));
      AdvancesInTurn(s, t, WriteOf(l, db, tr[0]), PublishOf(l.table, tr[0]), a,
                     WritesOf(l, db, tr[1..]), PublishedOf(l.table, tr[1..]), s');
    }
  }

  /** What a plan that runs to its end writes and publishes. */
  function PlanWrites(l: Loc, db: Database, p: Plan): map<Loc, Option<Row>> {
    if p.Done? then map[]
    else (if p.effect.Some? then WriteOf(l, db, p.effect.value) else map[]) + PlanWrites(l, db, p.rest)
  }

  function PlanPublishes(table: string, p: Plan): seq<set<Key>> {
    if p.Done? then []
    else (if p.effect.Some? then PublishOf(table, p.effect.value) else []) + PlanPublishes(table, p.rest)
  }

  predicate InnerPlan(p: Plan) {
    p.Then? ==>
      && p.effect != Some(Began) && p.effect != Some(Effect.Committed) && p.effect != Some(RolledBack)
      && InnerPlan(p.rest)
  }

  lemma {:induction false} PlanEffects(l: Loc, db: Database, p: Plan)
    requires ErrorOf(p).None? && InnerPlan(p)
    ensures Inner(EffectsOf(p))
    ensures WritesOf(l, db, EffectsOf(p)) == PlanWrites(l, db, p)
    ensures PublishedOf(l.table, EffectsOf(p)) == PlanPublishes(l.table, p)
  {
    if p.Then? {
      PlanEffects(l, db, p.rest);
      if p.effect.Some? {
        assert EffectsOf(p) == [p.effect.value] + EffectsOf(p.rest);
        assert EffectsOf(p)[1..] == EffectsOf(p.rest);
      } else {
        assert EffectsOf(p) == EffectsOf(p.rest);
      }
    }
  }

  /** One call on a session; `where` is the condition it chose. */
  datatype Call = Inserts(ienv: InsertEnv) | Deletes(bean: Row, denv: DeleteEnv, where: Query)
                | Updates(uenv: UpdateEnv, where: Query)

  function PlanOf(sch: Schema, c: Call): Plan {
    match c
    case Inserts(env) => InsertPlan(sch, env)
    case Deletes(bean, env, where) => DeletePlan(sch, bean, env, where)
    case Updates(env, where) => UpdatePlan(sch, env, where)
  }

  /** Whether the call has anything to write: without a key column a removal or update does nothing. */
  predicate Acts(sch: Schema, c: Call) {
    match c
    case Inserts(_) => true
    case Deletes(bean, _, _) => QueriesOf(sch, bean) != {}
    case Updates(env, _) => env.merged.None? || QueriesOf(sch, env.merged.value) != {}
  }

  /** The row as the call knows it, and what becomes of the row at `l`. */
  function RowOf(c: Call): Row {
    match c
    case Inserts(env) => env.stored
    case Deletes(_, env, _) => if env.loaded.Some? then env.loaded.value else map[]
    case Updates(env, _) => if env.merged.Some? then env.merged.value else map[]
  }

  function Becomes(db: Database, l: Loc, c: Call): Option<Row> {
    match c
    case Inserts(env) => Some(env.stored)
    case Deletes(_, _, _) => None
    case Updates(env, _) => Some(if l in db then Updated(db[l], RowOf(c), env.columns) else RowOf(c))
  }

  lemma TailWrites(l: Loc, db: Database, sch: Schema, row: Row, ok: bool, after: Option<bool>, rest: Plan)
    requires PlanWrites(l, db, rest) == map[] && PlanPublishes(l.table, rest) == [] && InnerPlan(rest)
    ensures var p := Announce(sch, row, ok, Hook(after, rest));
            PlanWrites(l, db, p) == map[] && PlanPublishes(l.table, p) == [KeysFor(l.table, QueriesOf(sch, row))] && InnerPlan(p)
  {
    assert InnerPlan(Hook(after, rest));
    assert PlanWrites(l, db, Hook(after, rest)) == map[] && PlanPublishes(l.table, Hook(after, rest)) == [];
  }

  /** The plan changes the row at `l` once and publishes the lookups of `row`. */
  predicate ChangesOnce(l: Loc, db: Database, sch: Schema, row: Row, change: Option<Row>, p: Plan) {
    && InnerPlan(p)
    && PlanWrites(l, db, p) == map[l := change]
    && PlanPublishes(l.table, p) == [KeysFor(l.table, QueriesOf(sch, row))]
  }

  /** A stage in front that neither writes nor publishes. */
  lemma StageBefore(l: Loc, db: Database, sch: Schema, row: Row, change: Option<Row>, p: Plan)
    requires p.Then? && (p.effect == None || p.effect == Some(HookRan))
    requires ChangesOnce(l, db, sch, row, change, p.rest)
    ensures ChangesOnce(l, db, sch, row, change, p)
  {
    assert map[] + PlanWrites(l, db, p.rest) == PlanWrites(l, db, p.rest);
  }

  lemma WriteStage(l: Loc, db: Database, sch: Schema, row: Row, e: Effect, p: Plan, ok: bool, after: Option<bool>,
                   rest: Plan)
    requires p.Then? && p.effect == Some(e) && e.Wrote? && p.rest == Announce(sch, row, ok, Hook(after, rest))
    requires PlanWrites(l, db, rest) == map[] && PlanPublishes(l.table, rest) == [] && InnerPlan(rest)
    ensures ChangesOnce(l, db, sch, row, ChangeOf(db, l, e), p)
  {
    TailWrites(l, db, sch, row, ok, after, rest);
    assert WriteOf(l, db, e) + map[] == map[l := ChangeOf(db, l, e)];
  }

  lemma InsertChanges(l: Loc, db: Database, sch: Schema, env: InsertEnv)
    requires l !in db
    ensures ChangesOnce(l, db, sch, env.stored, Some(env.stored), InsertPlan(sch, env))
  {
    var p := InsertPlan(sch, env);
    WriteStage(l, db, sch, env.stored, Wrote(Insertion, map[], env.stored, None), p.rest.rest, env.publishOk, env.after, Done);
    StageBefore(l, db, sch, env.stored, Some(env.stored), p.rest);
    StageBefore(l, db, sch, env.stored, Some(env.stored), p);
  }

  lemma RemovalChanges(l: Loc, db: Database, sch: Schema, row: Row, env: DeleteEnv, where: Query)
    ensures ChangesOnce(l, db, sch, row, None, RemovalPlan(sch, row, env, where))
  {
    var p := RemovalPlan(sch, row, env, where);
    WriteStage(l, db, sch, row, Wrote(Removal, where, row, None), p.rest, env.publishOk, env.after, Done);
    StageBefore(l, db, sch, row, None, p);
  }

  lemma LastStage(l: Loc, db: Database, p: Plan)
    requires p.Then? && p.rest == Done && (p.effect == None || p.effect == Some(Requeried))
    ensures InnerPlan(p) && PlanWrites(l, db, p) == map[] && PlanPublishes(l.table, p) == []
  {
    var none: map<Loc, Option<Row>> := map[];
    assert PlanWrites(l, db, p.rest) == none && PlanPublishes(l.table, p.rest) == [];
    assert none + none == none;
  }

  lemma ModificationChanges(l: Loc, db: Database, sch: Schema, row: Row, env: UpdateEnv, where: Query)
    ensures ChangesOnce(l, db, sch, row, Some(if l in db then Updated(db[l], row, env.columns) else row),
                        ModificationPlan(sch, row, env, where))
  {
    var p := ModificationPlan(sch, row, env, where);
    var e := Wrote(Modification, where, row, env.columns);
    var w := p.rest.rest;
    var last := w.rest.rest.rest;
    LastStage(l, db, last);
    WriteStage(l, db, sch, row, e, w, env.publishOk, env.after, last);
    StageBefore(l, db, sch, row, ChangeOf(db, l, e), p.rest);
    StageBefore(l, db, sch, row, ChangeOf(db, l, e), p);
  }

  lemma CallChanges(l: Loc, db: Database, sch: Schema, c: Call)
    requires ErrorOf(PlanOf(sch, c)).None? && (c.Inserts? ==> l !in db)
    ensures if Acts(sch, c) then ChangesOnce(l, db, sch, RowOf(c), Becomes(db, l, c), PlanOf(sch, c)) else PlanOf(sch, c) == Done
  {
    match c
    case Inserts(env) => InsertChanges(l, db, sch, env);
    case Deletes(bean, env, where) =>
      if Acts(sch, c) { RemovalChanges(l, db, sch, RowOf(c), env, where); }
    case Updates(env, where) =>
      if Acts(sch, c) { ModificationChanges(l, db, sch, RowOf(c), env, where); }
  }

  /**
   A call that ends well is a run of the system up to its commit: its transaction holds the one
   change and the keys of the row the call knew, and everything else but the messages is as before.
   The commit is then allowed exactly when the rows changed have the key columns of that row.
   */
  lemma CallIsRun(cat: Catalog, s: State, t: nat, l: Loc, c: Call) returns (s': State)
    requires l.table in cat && t !in s.begun && t !in s.txs
    requires ErrorOf(PlanOf(cat[l.table], c)).None?
    requires c.Inserts? ==> l !in s.world.db
    requires Acts(cat[l.table], c) ==> UniqueDb(cat, Applied(s.world.db, map[l := Becomes(s.world.db, l, c)]))
    requires UniqueDb(cat, s.world.db)
    ensures Exec(REAL, cat, s, StepsOf(t, l, s.world.db, [Began] + EffectsOf(PlanOf(cat[l.table], c)))) == Some(s')
    ensures t in s'.txs && s' == s.(txs := s.txs[t := s'.txs[t]], begun := s.begun + {t}, nodes := s'.nodes)
    ensures Acts(cat[l.table], c) ==>
              var published := KeysFor(l.table, QueriesOf(cat[l.table], RowOf(c)));
              && s'.txs[t].writes == map[l := Becomes(s.world.db, l, c)]
              && s'.txs[t].published == published && s'.nodes == ToAll(s.nodes, MessageOf(t, published))
    ensures !Acts(cat[l.table], c) ==> s'.txs[t].writes == map[] && s'.txs[t].published == {} && s'.nodes == s.nodes
    ensures Enabled(REAL, cat, s', Step.Commit(t))
            <==> !Acts(cat[l.table], c) || KeepsKeys(cat, s.world.db, l, RowOf(c), Becomes(s.world.db, l, c))
  {
    var db, p := s.world.db, PlanOf(cat[l.table], c);
    CallChanges(l, db, cat[l.table], c);
    PlanEffects(l, db, p);
    s' := BegunBody(cat, s, t, l, EffectsOf(p));
    SentOnce(s.nodes, t, KeysFor(l.table, QueriesOf(cat[l.table], RowOf(c))));
    CommitOfCall(cat, s', t, l, c);
  }

  lemma Begun(cat: Catalog, s: State, t: nat) returns (s': State)
    requires t !in s.begun && t !in s.txs
    ensures Exec(REAL, cat, s, [Step.Begin(t)]) == Some(s')
    ensures s' == s.(txs := s.txs[t := Tx(map[], {}, None)], begun := s.begun + {t})
  {
    ExecOne(REAL, cat, s, Step.Begin(t));
    s' := After(REAL, cat, s, Step.Begin(t));
  }

  lemma BegunBody(cat: Catalog, s: State, t: nat, l: Loc, body: seq<Effect>) returns (s': State)
    requires t !in s.begun && t !in s.txs && Inner(body)
    ensures Exec(REAL, cat, s, StepsOf(t, l, s.world.db, [Began] + body)) == Some(s')
    ensures t in s'.txs && s' == s.(txs := s.txs[t := s'.txs[t]], begun := s.begun + {t}, nodes := s'.nodes)
    ensures s'.txs[t].writes == WritesOf(l, s.world.db, body) && s'.txs[t].published == Union(PublishedOf(l.table, body))
    ensures s'.nodes == Sent(s.nodes, t, PublishedOf(l.table, body))
  {
    var db := s.world.db;
    var a := Begun(cat, s, t);
    s' := BodyAdvances(REAL, cat, a, t, l, db, body);
    assert ([Began] + body)[1..] == body;
    ExecAppend(REAL, cat, s, [Step.Begin(t)], StepsOf(t, l, db, body));
    assert s.txs[t := a.txs[t]][t := s'.txs[t]] == s.txs[t := s'.txs[t]];
    var writes := WritesOf(l, db, body);
    assert map[] + writes == writes;
  }

  lemma CommitOfCall(cat: Catalog, s: State, t: nat, l: Loc, c: Call)
    requires l.table in cat && t in s.txs && UniqueDb(cat, s.world.db)
    requires Acts(cat[l.table], c) ==> UniqueDb(cat, Applied(s.world.db, map[l := Becomes(s.world.db, l, c)]))
    requires if Acts(cat[l.table], c)
             then s.txs[t].writes == map[l := Becomes(s.world.db, l, c)]
                  && s.txs[t].published == KeysFor(l.table, QueriesOf(cat[l.table], RowOf(c)))
             else s.txs[t].writes == map[]
    ensures Enabled(REAL, cat, s, Step.Commit(t))
            <==> !Acts(cat[l.table], c) || KeepsKeys(cat, s.world.db, l, RowOf(c), Becomes(s.world.db, l, c))
  {
    if Acts(cat[l.table], c) {
      CommittableIff(cat, s.world.db, l, RowOf(c), Becomes(s.world.db, l, c), s.txs[t].since);
      var tx := s.txs[t];
      assert tx == Tx(map[l := Becomes(s.world.db, l, c)], KeysFor(l.table, QueriesOf(cat[l.table], RowOf(c))), tx.since);
    } else {
      assert Applied(s.world.db, map[]) == s.world.db;
    }
  }

  // ---- What a commit can do ----

  /** Once transaction `t` has committed, some run settles with a node left wrong. */
  ghost predicate CommitHarms(cat: Catalog, s: State, t: nat)
    requires t in s.txs
  {
    exists s': State :: Leads(REAL, cat, ANY, Coherence.Committed(s, t), s') && Quiet(s') && !Coherent(s')
  }

  /** In some run a transaction that makes this change, with at least these keys published, does harm by committing. */
  ghost predicate CanHarm(cat: Catalog, db: Database, l: Loc, change: Option<Row>, published: set<Key>) {
    exists s: State, t: nat ::
      && Reachable(REAL, cat, s) && s.world.db == db && t in s.txs
      && s.txs[t].writes == map[l := change] && published <= s.txs[t].published
      && CommitHarms(cat, s, t)
  }

  lemma AllowedIsHarmless(cat: Catalog, s: State, t: nat)
    requires Reachable(REAL, cat, s) && t in s.txs && Enabled(REAL, cat, s, Step.Commit(t))
    ensures !CommitHarms(cat, s, t)
  {
    var c := Coherence.Committed(s, t);
    Here(REAL, cat, ANY, s);
    var c' := Step1(REAL, cat, ANY, s, s, Step.Commit(t));
    LeadsReachable(REAL, cat, ANY, s, c);
    if CommitHarms(cat, s, t) {
      var s': State :| Leads(REAL, cat, ANY, c, s') && Quiet(s') && !Coherent(s');
      LeadsReachable(REAL, cat, ANY, c, s');
      QuietIsCoherent(cat, s');
    }
  }

  lemma OnlyAnswer(cat: Catalog, db: Database, k: Key, l: Loc, m: Loc)
    requires UniqueDb(cat, db) && CoveredKey(cat, k)
    requires l in db && Answers(k, l, db[l]) && m in db && Answers(k, m, db[m])
    ensures l == m
  {
  }

  /** A lookup of a changed row that `row` does not yield changes its answer. */
  lemma MissedLookupChanges(cat: Catalog, db: Database, l: Loc, row: Row, change: Option<Row>) returns (k: Key)
    requires l.table in cat && UniqueDb(cat, db) && UniqueDb(cat, Applied(db, map[l := change]))
    requires l in db ==> change != Some(db[l])
    requires !KeepsKeys(cat, db, l, row, change)
    ensures CoveredKey(cat, k) && k !in KeysFor(l.table, QueriesOf(cat[l.table], row))
    ensures Lookup(db, k) != Lookup(Applied(db, map[l := change]), k)
  {
    var sch, db' := cat[l.table], Applied(db, map[l := change]);
    assert forall m | m != l :: (m in db <==> m in db') && (m in db ==> db[m] == db'[m]);
    if l in db && !SameKeyColumns(sch, row, db[l]) {
      var q := DifferentColumnIsMissed(sch, row, db[l]);
      k := RowKey(l.table, q);
      LookupFinds(cat, db, k, l);
      if m: Loc :| m in db' && Answers(k, m, db'[m]) {
        LookupFinds(cat, db', k, m);
        if m != l { OnlyAnswer(cat, db, k, l, m); }
      }
    } else {
      var q := DifferentColumnIsMissed(sch, row, change.value);
      k := RowKey(l.table, q);
      LookupFinds(cat, db', k, l);
      if m: Loc :| m in db && Answers(k, m, db[m]) {
        LookupFinds(cat, db, k, m);
        if m != l { OnlyAnswer(cat, db', k, l, m); }
      }
    }
  }

  lemma MissedLookupHarms(cat: Catalog, s: State, l: Loc, row: Row, change: Option<Row>, t: nat) returns (b: State)
    requires l.table in cat && Reachable(REAL, cat, s) && Idle(s) && t !in s.begun
    requires UniqueDb(cat, s.world.db) && UniqueDb(cat, Applied(s.world.db, map[l := change]))
    requires l in s.world.db ==> change != Some(s.world.db[l])
    requires !KeepsKeys(cat, s.world.db, l, row, change)
    ensures Leads(REAL, cat, ANY, s, b) && b.world == s.world
    ensures t in b.txs && b.txs[t].writes == map[l := change]
    ensures b.txs[t].published == KeysFor(l.table, QueriesOf(cat[l.table], row))
    ensures CommitHarms(cat, b, t)
  {
    var k := MissedLookupChanges(cat, s.world.db, l, row, change);
    var published := KeysFor(l.table, QueriesOf(cat[l.table], row));
    var keys := Listed(published);
    assert (set j | j in keys) == published;
    var after: State;
    b, after := UnpublishedIsKept(REAL, cat, s, 0, t, l, change, k, keys);
    HarmShows(cat, b, t, after, k);
  }

  lemma HarmShows(cat: Catalog, s: State, t: nat, s': State, k: Key)
    requires t in s.txs && Leads(REAL, cat, ANY, Coherence.Committed(s, t), s')
    requires Idle(s') && Stale(s'.world, s'.nodes[0], k)
    ensures CommitHarms(cat, s, t)
  {
    assert Quiet(s') && !Coherent(s');
  }

  /**
   A change made by a session that published the lookups of `row` can do harm by committing
   exactly when the row changed, as it was or as it becomes, has other values in its key columns.
   */
  lemma ChangeHarmsIff(cat: Catalog, db: Database, l: Loc, row: Row, change: Option<Row>)
    requires l.table in cat && UniqueDb(cat, db) && UniqueDb(cat, Applied(db, map[l := change]))
    requires l in db ==> change != Some(db[l])
    ensures CanHarm(cat, db, l, change, KeysFor(l.table, QueriesOf(cat[l.table], row)))
            <==> !KeepsKeys(cat, db, l, row, change)
  {
    var published := KeysFor(l.table, QueriesOf(cat[l.table], row));
    if KeepsKeys(cat, db, l, row, change) {
      forall s: State, t: nat | Reachable(REAL, cat, s) && s.world.db == db && t in s.txs
                                && s.txs[t].writes == map[l := change] && published <= s.txs[t].published
        ensures !CommitHarms(cat, s, t)
      {
        CommittableIff(cat, db, l, row, change, None);
        assert Announces(cat, db, s.txs[t]);
        AllowedIsHarmless(cat, s, t);
      }
    } else {
      var s := OneNode(db);
      StartReachable(REAL, cat, s);
      var b := MissedLookupHarms(cat, s, l, row, change, 0);
      LeadsReachable(REAL, cat, ANY, s, b);
    }
  }

  /** The keys of the row a call knows, wherever that row came from. */
  function KnownKeys(sch: Schema, l: Loc, c: Call): set<Key> {
    KeysFor(l.table, QueriesOf(sch, RowOf(c)))
  }

  /** Transaction `t` is the call, from its beginning up to its commit. */
  ghost predicate RunsUpToCommit(cat: Catalog, a: State, t: nat, l: Loc, c: Call, b: State)
    requires l.table in cat
  {
    && Exec(REAL, cat, a, StepsOf(t, l, a.world.db, [Began] + EffectsOf(PlanOf(cat[l.table], c)))) == Some(b)
    && t in b.txs
  }

  /**
   From any idle state, a call that ends well but knows other key columns than those of a row it
   changes can do harm by committing: all that is needed is a lookup at the right time before.
   */
  lemma CallHarms(cat: Catalog, s: State, t: nat, l: Loc, c: Call) returns (a: State, b: State)
    requires l.table in cat && Idle(s) && t !in s.begun && UniqueDb(cat, s.world.db)
    requires ErrorOf(PlanOf(cat[l.table], c)).None? && Acts(cat[l.table], c) && (c.Inserts? ==> l !in s.world.db)
    requires UniqueDb(cat, Applied(s.world.db, map[l := Becomes(s.world.db, l, c)]))
    requires l in s.world.db ==> Becomes(s.world.db, l, c) != Some(s.world.db[l])
    requires !KeepsKeys(cat, s.world.db, l, RowOf(c), Becomes(s.world.db, l, c))
    ensures Leads(REAL, cat, ANY, s, a) && a.world == s.world
    ensures RunsUpToCommit(cat, a, t, l, c, b) && CommitHarms(cat, b, t)
  {
    var change := Becomes(s.world.db, l, c);
    var k := MissedLookupChanges(cat, s.world.db, l, RowOf(c), change);
    Here(REAL, cat, ANY, s);
    a := Refill(REAL, cat, s, s, 0, k);
    b := CallIsRun(cat, a, t, l, c);
    CommitAfterCall(cat, a, b, t, l, change, KnownKeys(cat[l.table], l, c), k);
  }

  lemma CommitAfterCall(cat: Catalog, a: State, b: State, t: nat, l: Loc, change: Option<Row>, published: set<Key>, k: Key)
    requires Idle(a) && k.RowKey? && k in a.nodes[0].cache && a.nodes[0].cache[k] == Lookup(a.world.db, k)
    requires t in b.txs && b == a.(txs := a.txs[t := b.txs[t]], begun := a.begun + {t}, nodes := b.nodes)
    requires b.txs[t].writes == map[l := change] && b.nodes == ToAll(a.nodes, MessageOf(t, published))
    requires k !in published && Lookup(a.world.db, k) != Lookup(Applied(a.world.db, map[l := change]), k)
    ensures CommitHarms(cat, b, t)
  {
    var c := Coherence.Committed(b, t);
    assert [] + [MessageOf(t, published)] == [MessageOf(t, published)];
    var after := IsNotCorrected(REAL, cat, c, 0, Listed(published), t, k);
    assert c.txs == map[];
    HarmShows(cat, b, t, after, k);
  }

  // ---- Loading a stale row before a removal ----

  const PEOPLE := Schema({"id", "name"}, {})
  const PEOPLECAT: Catalog := map["p" := PEOPLE]
  const ASKED: Row := map["name" := Text("x")]
  const LOADED: Row := map["id" := Num(5), "name" := Text("x")]
  const VICTIM: Row := map["id" := Num(9), "name" := Text("x")]
  const FIRST := Loc("p", 1)
  const SECOND := Loc("p", 2)
  const NAMEKEY := RowKey("p", map["name" := Text("x")])

  lemma OneRowIsUnique(cat: Catalog, l: Loc, row: Row)
    ensures UniqueDb(cat, map[]) && UniqueDb(cat, map[l := row])
  {
  }

  lemma PeopleFacts()
    ensures QueriesOf(PEOPLE, ASKED) == {ASKED} && Matches(ASKED, LOADED) && Matches(ASKED, VICTIM)
    ensures CoveredKey(PEOPLECAT, NAMEKEY)
    ensures Lookup(map[FIRST := LOADED], NAMEKEY) == RowBlob(LOADED)
    ensures Lookup(map[SECOND := VICTIM], NAMEKEY) == RowBlob(VICTIM)
    ensures !SameKeyColumns(PEOPLE, LOADED, VICTIM)
  {
    assert Picked(ASKED, {"name"}) == ASKED;
    assert NAMEKEY.query.Keys == {"name"};
    OneRowIsUnique(PEOPLECAT, FIRST, LOADED);
    OneRowIsUnique(PEOPLECAT, SECOND, VICTIM);
    var before: Database := map[FIRST := LOADED];
    var after: Database := map[SECOND := VICTIM];
    assert Answers(NAMEKEY, FIRST, before[FIRST]) && Answers(NAMEKEY, SECOND, after[SECOND]);
    LookupFinds(PEOPLECAT, before, NAMEKEY, FIRST);
    LookupFinds(PEOPLECAT, after, NAMEKEY, SECOND);
    assert Has(VICTIM, "id") && !SameValue(LOADED, VICTIM, "id");
  }

  /** A transaction that makes one change and publishes the keys of its row commits. */
  lemma ChangeRow(cat: Catalog, s0: State, s: State, t: nat, l: Loc, row: Row, change: Option<Row>, keys: seq<Key>)
    returns (s': State)
    requires l.table in cat && Leads(REAL, cat, ANY, s0, s) && |s.nodes| == 1 && s.txs == map[] && t !in s.begun
    requires (set k | k in keys) == KeysFor(l.table, QueriesOf(cat[l.table], row))
    requires UniqueDb(cat, Applied(s.world.db, map[l := change])) && KeepsKeys(cat, s.world.db, l, row, change)
    ensures Leads(REAL, cat, ANY, s0, s')
    ensures s' == With(s, 0, Received(s.nodes[0], DelKeys(keys, Some(t))))
                  .(begun := s.begun + {t}, world := World(Applied(s.world.db, map[l := change]), s.world.tokens))
  {
    var a := WriteAndPublish(REAL, cat, s0, s, t, l, change, keys);
    CommittableIff(cat, s.world.db, l, row, change, Some(s.now));
    s' := CommitOnly(REAL, cat, s0, a, t);
  }

  lemma PeopleKeepKeys()
    ensures KeepsKeys(PEOPLECAT, map[FIRST := LOADED], FIRST, LOADED, None)
    ensures KeepsKeys(PEOPLECAT, map[], SECOND, VICTIM, Some(VICTIM))
    ensures Applied(map[FIRST := LOADED], map[FIRST := None]) == map[]
    ensures Applied(map[], map[SECOND := Some(VICTIM)]) == map[SECOND := VICTIM]
    ensures UniqueDb(PEOPLECAT, map[]) && UniqueDb(PEOPLECAT, map[FIRST := LOADED])
    ensures UniqueDb(PEOPLECAT, map[SECOND := VICTIM])
  {
    OneRowIsUnique(PEOPLECAT, FIRST, LOADED);
    OneRowIsUnique(PEOPLECAT, SECOND, VICTIM);
  }

  /** A node that has cached the first row under the name, and the messages on their way to it. */
  function Caching(queue: seq<Message>): Node {
    Node(map[NAMEKEY := RowBlob(LOADED)], map[], queue, None, map[])
  }

  lemma CachedName() returns (s0: State, s: State)
    ensures Start(PEOPLECAT, s0) && Leads(REAL, PEOPLECAT, ANY, s0, s)
    ensures s == OneNode(map[FIRST := LOADED]).(nodes := [Caching([])])
  {
    PeopleFacts();
    PeopleKeepKeys();
    s0 := OneNode(map[FIRST := LOADED]);
    Here(REAL, PEOPLECAT, ANY, s0);
    s := Fill(REAL, PEOPLECAT, ANY, s0, s0, 0, NAMEKEY);
    assert s.nodes == [Caching([])];
  }

  /** Both rows' changes have committed, their messages are queued, and the first row is cached under the name. */
  lemma StaleName(keys: seq<Key>, keys': seq<Key>) returns (s: State)
    requires (set k | k in keys) == KeysFor("p", QueriesOf(PEOPLE, LOADED))
    requires (set k | k in keys') == KeysFor("p", QueriesOf(PEOPLE, VICTIM))
    ensures Reachable(REAL, PEOPLECAT, s) && s.world.db == map[SECOND := VICTIM]
    ensures s.txs == map[] && s.writers == map[] && s.begun == {0, 1}
    ensures s.nodes == [Caching([DelKeys(keys, Some(0)), DelKeys(keys', Some(1))])]
  {
    PeopleKeepKeys();
    var s0, a := CachedName();
    var m, m' := DelKeys(keys, Some(0)), DelKeys(keys', Some(1));
    var b := ChangeRow(PEOPLECAT, s0, a, 0, FIRST, LOADED, None, keys);
    assert Received(Caching([]), m) == Caching([m]) by { assert [] + [m] == [m]; }
    assert b.nodes == [Caching([m])];
    s := ChangeRow(PEOPLECAT, s0, b, 1, SECOND, VICTIM, Some(VICTIM), keys');
    assert Received(Caching([m]), m') == Caching([m, m']) by { assert [m] + [m'] == [m, m']; }
    assert s.nodes == [Caching([m, m'])];
    StartReachable(REAL, PEOPLECAT, s0);
    LeadsReachable(REAL, PEOPLECAT, ANY, s0, s);
  }

  /** The messages are handled, and the node is idle. */
  lemma BothHandled(s: State, keys: seq<Key>, keys': seq<Key>) returns (s': State)
    requires s.txs == map[] && s.writers == map[] && s.begun == {0, 1}
    requires s.nodes == [Caching([DelKeys(keys, Some(0)), DelKeys(keys', Some(1))])]
    ensures Leads(REAL, PEOPLECAT, ANY, s, s') && Idle(s') && s'.world == s.world && s'.begun == s.begun
  {
    Here(REAL, PEOPLECAT, ANY, s);
    assert s.nodes[0].queue == [DelKeys(keys, Some(0))] + [DelKeys(keys', Some(1))];
    var a := Settle(REAL, PEOPLECAT, ANY, s, s, 0, keys, Some(0), [DelKeys(keys', Some(1))]);
    assert a.nodes[0].queue == [DelKeys(keys', Some(1))] + [];
    s' := Settle(REAL, PEOPLECAT, ANY, s, a, 0, keys', Some(1), []);
  }

  /** A removal by the name, whose load found the first row. */
  const REMOVAL := Deletes(ASKED, DeleteEnv(Some(LOADED), None, true, true, None), ASKED)

  /**
   The first row is cached under the name that the second one holds, a removal by the name loads it,
   and later, with the rows as they were, transaction `t` is this removal up to its commit.
   */
  ghost predicate RemovesWrongly(s: State, a: State, b: State, t: nat) {
    && Reachable(REAL, PEOPLECAT, s) && s.world.db == map[SECOND := VICTIM]
    && s.nodes != [] && s.nodes[0].cache == map[NAMEKEY := RowBlob(LOADED)]
    && Leads(REAL, PEOPLECAT, ANY, s, a) && a.world == s.world
    && RunsUpToCommit(PEOPLECAT, a, t, SECOND, REMOVAL, b)
  }

  lemma RemovalFacts()
    ensures ErrorOf(PlanOf(PEOPLE, REMOVAL)).None? && Acts(PEOPLE, REMOVAL) && RowOf(REMOVAL) == LOADED
    ensures forall db :: Becomes(db, SECOND, REMOVAL) == None
    ensures Applied(map[SECOND := VICTIM], map[SECOND := None]) == map[]
    ensures !KeepsKeys(PEOPLECAT, map[SECOND := VICTIM], SECOND, LOADED, None)
  {
    PeopleFacts();
    assert Announce(PEOPLE, LOADED, true, Hook(None, Done)).ok;
  }

  lemma RemovalHarms(s: State, idle: State, t: nat) returns (a: State, b: State)
    requires Reachable(REAL, PEOPLECAT, s) && s.world.db == map[SECOND := VICTIM]
    requires s.nodes != [] && s.nodes[0].cache == map[NAMEKEY := RowBlob(LOADED)]
    requires Leads(REAL, PEOPLECAT, ANY, s, idle) && Idle(idle) && idle.world == s.world && t !in idle.begun
    ensures RemovesWrongly(s, a, b, t) && CommitHarms(PEOPLECAT, b, t)
  {
    RemovalFacts();
    PeopleKeepKeys();
    a, b := CallHarms(PEOPLECAT, idle, t, SECOND, REMOVAL);
    Onward(REAL, PEOPLECAT, ANY, s, idle, a);
  }

  /**
   Removing by a unique column with a stale cached row. In a reachable state a node holds under a
   name the row that had it before. A removal by that name loads this row, its condition hits
   the row now holding the name, and it publishes the keys of the row it loaded; in some run
   its commit leaves the node wrong for good.
   */
  lemma StaleRemovalHarms()
    ensures QueriesOf(PEOPLE, ASKED) == {ASKED} && Matches(ASKED, LOADED) && Matches(ASKED, VICTIM)
    ensures exists s: State, a: State, b: State, t: nat :: RemovesWrongly(s, a, b, t) && CommitHarms(PEOPLECAT, b, t)
  {
    PeopleFacts();
    var keys := Listed(KeysFor("p", QueriesOf(PEOPLE, LOADED)));
    var keys' := Listed(KeysFor("p", QueriesOf(PEOPLE, VICTIM)));
    assert (set k | k in keys) == KeysFor("p", QueriesOf(PEOPLE, LOADED));
    assert (set k | k in keys') == KeysFor("p", QueriesOf(PEOPLE, VICTIM));
    var s := StaleName(keys, keys');
    var idle := BothHandled(s, keys, keys');
    var a, b := RemovalHarms(s, idle, 2);
  }
}
