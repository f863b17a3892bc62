/**
 Row writes through a session: each is a sequence of effects on the transaction and on the
 publish channel that stops at the first failure, wrapped in a transaction that commits only
 if nothing failed.
 */
module Session {
  import opened Rows
  import opened Wrappers

  datatype Error = HookFailed | DbFailed | NothingInserted | NothingUpdated | PublishFailed
                 | NotLoaded | BeginFailed | CommitFailed

  datatype Op = Insertion | Modification | Removal

  /**
   `row` is the row as the session knows it: as stored, as merged, or as loaded for removal.
   An update with `columns` writes those of its row only.
   */
  datatype Effect = Began | Wrote(op: Op, where: Query, row: Row, columns: Option<set<string>>)
                  | Published(keys: set<Query>)
                  | HookRan | Requeried | Committed | RolledBack

  // ---- The reference: a plan of stages that stops at its first failing one ----

  datatype Plan = Done | Then(ok: bool, effect: Option<Effect>, error: Error, rest: Plan)

  function EffectsOf(p: Plan): seq<Effect> {
    if p.Done? || !p.ok then []
    else (match p.effect case Some(e) => [e] case None => []) + EffectsOf(p.rest)
  }

  function ErrorOf(p: Plan): Option<Error> {
    if p.Done? then None else if !p.ok then Some(p.error) else ErrorOf(p.rest)
  }

  /** A hook the bean may or may not have: `None` when it has none, else whether it succeeded. */
  function Hook(hook: Option<bool>, rest: Plan): Plan {
    Then(hook.None? || hook.value, if hook.Some? then Some(HookRan) else None, HookFailed, rest)
  }

  function Announce(sch: Schema, row: Row, ok: bool, rest: Plan): Plan {
    Then(ok, Some(Published(QueriesOf(sch, row))), PublishFailed, rest)
  }

  // ---- Inputs a session cannot choose ----

  /** `stored` is the bean after the insert, with any generated id. */
  datatype InsertEnv = InsertEnv(before: Option<bool>, dbOk: bool, affected: nat, stored: Row,
                                 publishOk: bool, after: Option<bool>)

  /** `loaded` is the bean after the cached row was decoded into it. */
  datatype DeleteEnv = DeleteEnv(loaded: Option<Row>, before: Option<bool>, dbOk: bool, publishOk: bool,
                                 after: Option<bool>)

  /** `merged` is the cached row with the caller's changes merged in; `columns` those it names, if any. */
  datatype UpdateEnv = UpdateEnv(merged: Option<Row>, columns: Option<set<string>>, before: Option<bool>,
                                 dbOk: bool, affected: nat,
                                 publishOk: bool, after: Option<bool>, requery: Option<bool>)

  function InsertPlan(sch: Schema, env: InsertEnv): Plan {
    Hook(env.before,
         Then(env.dbOk, None, DbFailed,
              Then(env.affected != 0, Some(Wrote(Insertion, map[], env.stored, None)), NothingInserted,
                   Announce(sch, env.stored, env.publishOk,
                            Hook(env.after, Done)))))
  }

  function RemovalPlan(sch: Schema, loaded: Row, env: DeleteEnv, where: Query): Plan {
    Hook(env.before,
         Then(env.dbOk, Some(Wrote(Removal, where, loaded, None)), DbFailed,
              Announce(sch, loaded, env.publishOk,
                       Hook(env.after, Done))))
  }

  /** A bean without a key column yields no condition: the call succeeds and does nothing. */
  function DeletePlan(sch: Schema, bean: Row, env: DeleteEnv, where: Query): Plan {
    if QueriesOf(sch, bean) == {} then Done
    else if env.loaded.None? then Then(false, None, NotLoaded, Done)
    else RemovalPlan(sch, env.loaded.value, env, where)
  }

  function PublishPlan(sch: Schema, row: Row, env: UpdateEnv): Plan {
    Announce(sch, row, env.publishOk,
             Hook(env.after,
                  Then(env.requery.None? || env.requery.value,
                       if env.requery.Some? then Some(Requeried) else None, DbFailed, Done)))
  }

  function ModificationPlan(sch: Schema, row: Row, env: UpdateEnv, where: Query): Plan {
    Hook(env.before,
         Then(env.dbOk, None, DbFailed,
              Then(env.affected != 0, Some(Wrote(Modification, where, row, env.columns)), NothingUpdated,
                   PublishPlan(sch, row, env))))
  }

  function UpdatePlan(sch: Schema, env: UpdateEnv, where: Query): Plan {
    if env.merged.None? then Then(false, None, NotLoaded, Done)
    else if QueriesOf(sch, env.merged.value) == {} then Done
    else ModificationPlan(sch, env.merged.value, env, where)
  }

  /** What a transaction around a body leaves: committed only after a body without error. */
  function TxEffects(beginOk: bool, commitOk: bool, body: seq<Effect>, err: Option<Error>): seq<Effect> {
    if !beginOk then []
    else [Began] + body + (if err.Some? then [RolledBack] else if commitOk then [Committed] else [])
  }

  function TxError(beginOk: bool, commitOk: bool, err: Option<Error>): Option<Error> {
    if !beginOk then Some(BeginFailed) else if err.Some? then err else if commitOk then None else Some(CommitFailed)
  }

  /** After the effects `now`, the stages `left` are what remains of `all`, begun after `before`. */
  predicate Remaining(before: seq<Effect>, all: Plan, now: seq<Effect>, left: Plan) {
    now + EffectsOf(left) == before + EffectsOf(all) && ErrorOf(left) == ErrorOf(all)
  }

  // ---- What a call does, from what happens to it ----

  /** A hook that is absent or succeeds. */
  predicate Good(hook: Option<bool>) {
    hook != Some(false)
  }

  function When(condition: bool, effects: seq<Effect>): seq<Effect> {
    if condition then effects else []
  }

  predicate InsertOutcome(sch: Schema, env: InsertEnv, err: Option<Error>, done: seq<Effect>) {
    var written := Good(env.before) && env.dbOk && env.affected != 0;
    && err == (if !Good(env.before) then Some(HookFailed) else if !env.dbOk then Some(DbFailed)
               else if env.affected == 0 then Some(NothingInserted) else if !env.publishOk then Some(PublishFailed)
               else if !Good(env.after) then Some(HookFailed) else None)
    && done == When(env.before == Some(true), [HookRan])
             + When(written, [Wrote(Insertion, map[], env.stored, None)])
             + When(written && env.publishOk, [Published(QueriesOf(sch, env.stored))])
             + When(written && env.publishOk && env.after == Some(true), [HookRan])
  }

  predicate DeleteOutcome(sch: Schema, bean: Row, env: DeleteEnv, where: Query, err: Option<Error>, done: seq<Effect>) {
    if QueriesOf(sch, bean) == {} then err == None && done == []
    else if env.loaded.None? then err == Some(NotLoaded) && done == []
    else
      var row, written := env.loaded.value, Good(env.before) && env.dbOk;
      && err == (if !Good(env.before) then Some(HookFailed) else if !env.dbOk then Some(DbFailed)
                 else if !env.publishOk then Some(PublishFailed)
                 else if !Good(env.after) then Some(HookFailed) else None)
      && done == When(env.before == Some(true), [HookRan])
               + When(written, [Wrote(Removal, where, row, None)])
               + When(written && env.publishOk, [Published(QueriesOf(sch, row))])
               + When(written && env.publishOk && env.after == Some(true), [HookRan])
  }

  predicate UpdateOutcome(sch: Schema, env: UpdateEnv, where: Query, err: Option<Error>, done: seq<Effect>) {
    if env.merged.None? then err == Some(NotLoaded) && done == []
    else if QueriesOf(sch, env.merged.value) == {} then err == None && done == []
    else
      var row, written := env.merged.value, Good(env.before) && env.dbOk && env.affected != 0;
      && err == (if !Good(env.before) then Some(HookFailed) else if !env.dbOk then Some(DbFailed)
                 else if env.affected == 0 then Some(NothingUpdated) else if !env.publishOk then Some(PublishFailed)
                 else if !Good(env.after) then Some(HookFailed) else if !Good(env.requery) then Some(DbFailed) else None)
      && done == When(env.before == Some(true), [HookRan])
               + When(written, [Wrote(Modification, where, row, env.columns)])
               + When(written && env.publishOk, [Published(QueriesOf(sch, row))])
               + When(written && env.publishOk && env.after == Some(true), [HookRan])
               + When(written && env.publishOk && Good(env.after) && env.requery == Some(true), [Requeried])
  }

  /** A transaction of its own: the body's outcome, between its beginning and its commit or rollback. */
  predicate TxOutcome(beginOk: bool, commitOk: bool, bodyErr: Option<Error>, body: seq<Effect>,
                      err: Option<Error>, done: seq<Effect>) {
    && (err == None <==> beginOk && bodyErr == None && commitOk)
    && (!beginOk ==> err == Some(BeginFailed) && done == [])
    && (beginOk && bodyErr.Some? ==> err == bodyErr && done == [Began] + body + [RolledBack])
    && (beginOk && bodyErr.None? && commitOk ==> done == [Began] + body + [Committed])
    && (beginOk && bodyErr.None? && !commitOk ==> err == Some(CommitFailed) && done == [Began] + body)
  }

  lemma HookMeets(hook: Option<bool>, next: Plan)
    ensures EffectsOf(Hook(hook, next)) == When(hook == Some(true), [HookRan]) + When(Good(hook), EffectsOf(next))
    ensures ErrorOf(Hook(hook, next)) == if Good(hook) then ErrorOf(next) else Some(HookFailed)
  {
  }

  /** The common end of the plans: the keys of the row are published and the after hook is run. */
  lemma AnnounceMeets(sch: Schema, row: Row, ok: bool, after: Option<bool>, next: Plan)
    ensures var p, rest := Announce(sch, row, ok, Hook(after, next)), When(ok && Good(after), EffectsOf(next));
            && EffectsOf(p) == When(ok, [Published(QueriesOf(sch, row))]) + When(ok && after == Some(true), [HookRan]) + rest
            && ErrorOf(p) == if !ok then Some(PublishFailed) else if !Good(after) then Some(HookFailed) else ErrorOf(next)
  {
    HookMeets(after, next);
    if ok {
      Regroup([Published(QueriesOf(sch, row))], When(after == Some(true), [HookRan]), When(Good(after), EffectsOf(next)));
    }
  }

  lemma Regroup(a: seq<Effect>, b: seq<Effect>, c: seq<Effect>)
    ensures a + (b + c) == a + b + c
  {
  }

  /** A write between the before hook and the end of a plan. */
  lemma WriteMeets(before: Option<bool>, written: bool, write: Effect, published: seq<Effect>, ran: seq<Effect>, next: seq<Effect>)
    requires !written ==> published == [] && ran == [] && next == []
    ensures When(before == Some(true), [HookRan]) + When(written, [write] + (published + ran + next))
         == When(before == Some(true), [HookRan]) + When(written, [write]) + published + ran + next
  {
    var hook := When(before == Some(true), [HookRan]);
    if written {
      Regroup(hook, [write], published + ran + next);
      Regroup(hook + [write], published + ran, next);
      Regroup(hook + [write], published, ran);
    }
  }

  lemma InsertMeets(sch: Schema, env: InsertEnv)
    ensures InsertOutcome(sch, env, ErrorOf(InsertPlan(sch, env)), EffectsOf(InsertPlan(sch, env)))
  {
    var p := InsertPlan(sch, env);
    var write := Wrote(Insertion, map[], env.stored, None);
    var written := Good(env.before) && env.dbOk && env.affected != 0;
    HookMeets(env.before, p.rest);
    AnnounceMeets(sch, env.stored, env.publishOk, env.after, Done);
    assert EffectsOf(p.rest) == if env.dbOk then EffectsOf(p.rest.rest) else [];
    WriteMeets(env.before, written, write, When(written && env.publishOk, [Published(QueriesOf(sch, env.stored))]),
               When(written && env.publishOk && env.after == Some(true), [HookRan]), []);
  }

  lemma DeleteMeets(sch: Schema, bean: Row, env: DeleteEnv, where: Query)
    ensures var p := DeletePlan(sch, bean, env, where); DeleteOutcome(sch, bean, env, where, ErrorOf(p), EffectsOf(p))
  {
    var p := DeletePlan(sch, bean, env, where);
    if QueriesOf(sch, bean) != {} && env.loaded.Some? {
      var row, written := env.loaded.value, Good(env.before) && env.dbOk;
      HookMeets(env.before, p.rest);
      AnnounceMeets(sch, row, env.publishOk, env.after, Done);
      WriteMeets(env.before, written, Wrote(Removal, where, row, None),
                 When(written && env.publishOk, [Published(QueriesOf(sch, row))]),
                 When(written && env.publishOk && env.after == Some(true), [HookRan]), []);
    }
  }

  lemma UpdateMeets(sch: Schema, env: UpdateEnv, where: Query)
    ensures var p := UpdatePlan(sch, env, where); UpdateOutcome(sch, env, where, ErrorOf(p), EffectsOf(p))
  {
    var p := UpdatePlan(sch, env, where);
    if env.merged.Some? && QueriesOf(sch, env.merged.value) != {} {
      var row, written := env.merged.value, Good(env.before) && env.dbOk && env.affected != 0;
      var last := p.rest.rest.rest.rest.rest;
      HookMeets(env.before, p.rest);
      AnnounceMeets(sch, row, env.publishOk, env.after, last);
      assert EffectsOf(last) == When(env.requery == Some(true), [Requeried]);
      assert EffectsOf(p.rest) == if env.dbOk then EffectsOf(p.rest.rest) else [];
      WriteMeets(env.before, written, Wrote(Modification, where, row, env.columns),
                 When(written && env.publishOk, [Published(QueriesOf(sch, row))]),
                 When(written && env.publishOk && env.after == Some(true), [HookRan]),
                 When(written && env.publishOk && Good(env.after) && env.requery == Some(true), [Requeried]));
    }
  }

  ghost predicate InsertTxOutcome(sch: Schema, env: InsertEnv, beginOk: bool, commitOk: bool,
                                  err: Option<Error>, done: seq<Effect>)
  {
    exists bodyErr, body :: InsertOutcome(sch, env, bodyErr, body) && TxOutcome(beginOk, commitOk, bodyErr, body, err, done)
  }

  ghost predicate DeleteTxOutcome(sch: Schema, bean: Row, env: DeleteEnv, where: Query, beginOk: bool, commitOk: bool,
                                  err: Option<Error>, done: seq<Effect>)
  {
    exists bodyErr, body ::
      DeleteOutcome(sch, bean, env, where, bodyErr, body) && TxOutcome(beginOk, commitOk, bodyErr, body, err, done)
  }

  ghost predicate UpdateTxOutcome(sch: Schema, env: UpdateEnv, where: Query, beginOk: bool, commitOk: bool,
                                  err: Option<Error>, done: seq<Effect>)
  {
    exists bodyErr, body ::
      UpdateOutcome(sch, env, where, bodyErr, body) && TxOutcome(beginOk, commitOk, bodyErr, body, err, done)
  }

  /** The beginning, the body and the end, one after the other. */
  lemma TxInTurn(before: seq<Effect>, commitOk: bool, body: seq<Effect>, err: Option<Error>)
    ensures var ending := if err.Some? then [RolledBack] else if commitOk then [Committed] else [];
            var now := before + [Began] + body + ending;
            && now == before + TxEffects(true, commitOk, body, err)
            && now[|before|..] == TxEffects(true, commitOk, body, err)
  {
  }

  lemma TxMeets(beginOk: bool, commitOk: bool, body: seq<Effect>, err: Option<Error>)
    ensures TxOutcome(beginOk, commitOk, err, body, TxError(beginOk, commitOk, err), TxEffects(beginOk, commitOk, body, err))
  {
  }

  lemma InsertTxMeets(sch: Schema, env: InsertEnv, beginOk: bool, commitOk: bool)
    ensures var (body, err) := (EffectsOf(InsertPlan(sch, env)), ErrorOf(InsertPlan(sch, env)));
            InsertTxOutcome(sch, env, beginOk, commitOk, TxError(beginOk, commitOk, err), TxEffects(beginOk, commitOk, body, err))
  {
    InsertMeets(sch, env);
    TxMeets(beginOk, commitOk, EffectsOf(InsertPlan(sch, env)), ErrorOf(InsertPlan(sch, env)));
  }

  lemma DeleteTxMeets(sch: Schema, bean: Row, env: DeleteEnv, where: Query, beginOk: bool, commitOk: bool)
    ensures var p := DeletePlan(sch, bean, env, where); var (body, err) := (EffectsOf(p), ErrorOf(p));
            DeleteTxOutcome(sch, bean, env, where, beginOk, commitOk,
                            TxError(beginOk, commitOk, err), TxEffects(beginOk, commitOk, body, err))
  {
    var p := DeletePlan(sch, bean, env, where);
    DeleteMeets(sch, bean, env, where);
    TxMeets(beginOk, commitOk, EffectsOf(p), ErrorOf(p));
  }

  lemma UpdateTxMeets(sch: Schema, env: UpdateEnv, where: Query, beginOk: bool, commitOk: bool)
    ensures var p := UpdatePlan(sch, env, where); var (body, err) := (EffectsOf(p), ErrorOf(p));
            UpdateTxOutcome(sch, env, where, beginOk, commitOk,
                            TxError(beginOk, commitOk, err), TxEffects(beginOk, commitOk, body, err))
  {
    var p := UpdatePlan(sch, env, where);
    UpdateMeets(sch, env, where);
    TxMeets(beginOk, commitOk, EffectsOf(p), ErrorOf(p));
  }

  class Session {
    const schema: Schema
    var effects: seq<Effect>

    constructor (schema: Schema)
      ensures this.schema == schema && effects == []
    {
      this.schema := schema;
      effects := [];
    }

    method RunHook(hook: Option<bool>) returns (err: Option<Error>)
      modifies this
      ensures effects == old(effects) + (if hook.Some? && hook.value then [HookRan] else [])
      ensures err == if hook.Some? && !hook.value then Some(HookFailed) else None
    {
      if hook.Some? && !hook.value {
        return Some(HookFailed);
      }
      if hook.Some? {
        effects := effects + [HookRan];
      } else {
        assert effects == old(effects) + [];
      }
      return None;
    }

    method DelCache(row: Row, ok: bool) returns (err: Option<Error>)
      modifies this
      ensures effects == old(effects) + (if ok then [Published(QueriesOf(schema, row))] else [])
      ensures err == if ok then None else Some(PublishFailed)
    {
      if !ok {
        return Some(PublishFailed);
      }
      effects := effects + [Published(QueriesOf(schema, row))];
      return None;
    }

    /** The common end of every write: publish the row's keys, then run the after hook. */
    method PublishThenHook(row: Row, publishOk: bool, after: Option<bool>, ghost next: Plan)
      returns (err: Option<Error>)
      modifies this
      ensures var p := Announce(schema, row, publishOk, Hook(after, next));
              if err.None? then Remaining(old(effects), p, effects, next)
              else effects == old(effects) + EffectsOf(p) && err == ErrorOf(p)
    {
      err := DelCache(row, publishOk);
      if err.Some? {
        return;
      }
      err := RunHook(after);
    }

    method Insert(env: InsertEnv) returns (err: Option<Error>)
      modifies this
      ensures effects == old(effects) + EffectsOf(InsertPlan(schema, env))
      ensures err == ErrorOf(InsertPlan(schema, env))
      ensures InsertOutcome(schema, env, err, effects[|old(effects)|..])
    {
      InsertMeets(schema, env);
      ghost var all := InsertPlan(schema, env);
      err := RunHook(env.before);
      if err.Some? {
        return;
      }
      assert Remaining(old(effects), all, effects, all.rest);
      if !env.dbOk {
        return Some(DbFailed);
      }
      assert Remaining(old(effects), all, effects, all.rest.rest);
      if env.affected == 0 {
        return Some(NothingInserted);
      }
      effects := effects + [Wrote(Insertion, map[], env.stored, None)];
      assert Remaining(old(effects), all, effects, all.rest.rest.rest);
      err := PublishThenHook(env.stored, env.publishOk, env.after, Done);
    }

    /** `where` is the condition used: some lookup of the bean as the caller gave it. */
    method Delete(bean: Row, env: DeleteEnv) returns (err: Option<Error>, where: Query)
      modifies this
      ensures QueriesOf(schema, bean) != {} ==> where in QueriesOf(schema, bean)
      ensures effects == old(effects) + EffectsOf(DeletePlan(schema, bean, env, where))
      ensures err == ErrorOf(DeletePlan(schema, bean, env, where))
      ensures DeleteOutcome(schema, bean, env, where, err, effects[|old(effects)|..])
    {
      forall q { DeleteMeets(schema, bean, env, q); }
      if QueriesOf(schema, bean) == {} {
        return None, map[];
      }
      where :| where in QueriesOf(schema, bean);
      if env.loaded.None? {
        err := Some(NotLoaded);
        return;
      }
      err := Remove(env.loaded.value, env, where);
    }

    /** The part of a removal after its row is loaded. */
    method Remove(loaded: Row, env: DeleteEnv, where: Query) returns (err: Option<Error>)
      modifies this
      ensures effects == old(effects) + EffectsOf(RemovalPlan(schema, loaded, env, where))
      ensures err == ErrorOf(RemovalPlan(schema, loaded, env, where))
    {
      ghost var all := RemovalPlan(schema, loaded, env, where);
      err := RunHook(env.before);
      if err.Some? {
        return;
      }
      assert Remaining(old(effects), all, effects, all.rest);
      if !env.dbOk {
        err := Some(DbFailed);
        return;
      }
      effects := effects + [Wrote(Removal, where, loaded, None)];
      assert Remaining(old(effects), all, effects, all.rest.rest);
      err := PublishThenHook(loaded, env.publishOk, env.after, Done);
    }

    /** `where` is the condition used: some lookup of the merged bean. */
    method Update(env: UpdateEnv) returns (err: Option<Error>, where: Query)
      modifies this
      ensures env.merged.Some? && QueriesOf(schema, env.merged.value) != {} ==>
                where in QueriesOf(schema, env.merged.value)
      ensures effects == old(effects) + EffectsOf(UpdatePlan(schema, env, where))
      ensures err == ErrorOf(UpdatePlan(schema, env, where))
      ensures UpdateOutcome(schema, env, where, err, effects[|old(effects)|..])
    {
      forall q { UpdateMeets(schema, env, q); }
      if env.merged.None? {
        return Some(NotLoaded), map[];
      }
      var row := env.merged.value;
      if QueriesOf(schema, row) == {} {
        return None, map[];
      }
      where :| where in QueriesOf(schema, row);
      err := Modify(row, env, where);
    }

    /** The part of an update after the row is merged and its condition chosen. */
    method Modify(row: Row, env: UpdateEnv, where: Query) returns (err: Option<Error>)
      modifies this
      ensures effects == old(effects) + EffectsOf(ModificationPlan(schema, row, env, where))
      ensures err == ErrorOf(ModificationPlan(schema, row, env, where))
    {
      ghost var all := ModificationPlan(schema, row, env, where);
      ghost var write := all.rest;
      ghost var publish := write.rest.rest;
      err := RunHook(env.before);
      if err.Some? {
        return;
      }
      assert Remaining(old(effects), all, effects, write);
      if !env.dbOk {
        err := Some(DbFailed);
        return;
      }
      assert Remaining(old(effects), all, effects, write.rest);
      if env.affected == 0 {
        err := Some(NothingUpdated);
        return;
      }
      effects := effects + [Wrote(Modification, where, row, env.columns)];
      assert Remaining(old(effects), all, effects, publish);
      err := PublishThenRequery(row, env);
    }

    method PublishThenRequery(row: Row, env: UpdateEnv) returns (err: Option<Error>)
      modifies this
      ensures effects == old(effects) + EffectsOf(PublishPlan(schema, row, env))
      ensures err == ErrorOf(PublishPlan(schema, row, env))
    {
      ghost var all := PublishPlan(schema, row, env);
      err := PublishThenHook(row, env.publishOk, env.after, all.rest.rest);
      if err.Some? {
        return;
      }
      if env.requery.Some? && !env.requery.value {
        err := Some(DbFailed);
        return;
      }
      if env.requery.Some? {
        effects := effects + [Requeried];
      }
      assert Remaining(old(effects), all, effects, Done);
    }

    /** Insert in a transaction of its own. */
    method InsertTx(beginOk: bool, commitOk: bool, env: InsertEnv) returns (err: Option<Error>)
      modifies this
      ensures var p := InsertPlan(schema, env);
              && effects == old(effects) + TxEffects(beginOk, commitOk, EffectsOf(p), ErrorOf(p))
              && err == TxError(beginOk, commitOk, ErrorOf(p))
      ensures InsertTxOutcome(schema, env, beginOk, commitOk, err, effects[|old(effects)|..])
    {
      InsertTxMeets(schema, env, beginOk, commitOk);
      if !beginOk {
        return Some(BeginFailed);
      }
      effects := effects + [Began];
      err := Insert(env);
      TxInTurn(old(effects), commitOk, EffectsOf(InsertPlan(schema, env)), err);
      err := Finish(err, commitOk);
    }

    method DeleteTx(beginOk: bool, commitOk: bool, bean: Row, env: DeleteEnv) returns (err: Option<Error>, where: Query)
      modifies this
      ensures beginOk && QueriesOf(schema, bean) != {} ==> where in QueriesOf(schema, bean)
      ensures var p := DeletePlan(schema, bean, env, where);
              && effects == old(effects) + TxEffects(beginOk, commitOk, EffectsOf(p), ErrorOf(p))
              && err == TxError(beginOk, commitOk, ErrorOf(p))
      ensures DeleteTxOutcome(schema, bean, env, where, beginOk, commitOk, err, effects[|old(effects)|..])
    {
      if !beginOk {
        DeleteTxMeets(schema, bean, env, map[], false, commitOk);
        return Some(BeginFailed), map[];
      }
      effects := effects + [Began];
      err, where := Delete(bean, env);
      TxInTurn(old(effects), commitOk, EffectsOf(DeletePlan(schema, bean, env, where)), err);
      err := Finish(err, commitOk);
      DeleteTxMeets(schema, bean, env, where, true, commitOk);
    }

    method UpdateTx(beginOk: bool, commitOk: bool, env: UpdateEnv) returns (err: Option<Error>, where: Query)
      modifies this
      ensures beginOk && env.merged.Some? && QueriesOf(schema, env.merged.value) != {} ==>
                where in QueriesOf(schema, env.merged.value)
      ensures var p := UpdatePlan(schema, env, where);
              && effects == old(effects) + TxEffects(beginOk, commitOk, EffectsOf(p), ErrorOf(p))
              && err == TxError(beginOk, commitOk, ErrorOf(p))
      ensures UpdateTxOutcome(schema, env, where, beginOk, commitOk, err, effects[|old(effects)|..])
    {
      if !beginOk {
        UpdateTxMeets(schema, env, map[], false, commitOk);
        return Some(BeginFailed), map[];
      }
      effects := effects + [Began];
      err, where := Update(env);
      TxInTurn(old(effects), commitOk, EffectsOf(UpdatePlan(schema, env, where)), err);
      err := Finish(err, commitOk);
      UpdateTxMeets(schema, env, where, true, commitOk);
    }

    /** The end of the transaction callback: roll back on error, else commit. */
    method Finish(bodyErr: Option<Error>, commitOk: bool) returns (err: Option<Error>)
      modifies this
      ensures effects == old(effects) + (if bodyErr.Some? then [RolledBack] else if commitOk then [Committed] else [])
      ensures err == TxError(true, commitOk, bodyErr)
    {
      err := bodyErr;
      if err.Some? {
        effects := effects + [RolledBack];
      } else if commitOk {
        effects := effects + [Committed];
      } else {
        err := Some(CommitFailed);
      }
    }
  }

  // ---- No commit without invalidation ----

  /** Every write is followed, before any commit, by the publication of all keys of its row. */
  predicate PublishedBeforeCommit(sch: Schema, tr: seq<Effect>) {
    forall c, i | 0 <= i < c < |tr| && tr[c] == Committed && tr[i].Wrote? ::
      exists j | i < j < c :: tr[j] == Published(QueriesOf(sch, tr[i].row))
  }

  /** The body of one call: at most one write, and if it ended well its keys right behind it. */
  predicate WellBehaved(sch: Schema, body: seq<Effect>, err: Option<Error>) {
    && (forall i | 0 <= i < |body| :: body[i] != Committed && body[i] != RolledBack)
    && (err.None? ==> forall i | 0 <= i < |body| && body[i].Wrote? ::
          i + 1 < |body| && body[i + 1] == Published(QueriesOf(sch, body[i].row)))
  }

  /** Each writing stage is followed by the stage that publishes its row. */
  predicate Disciplined(sch: Schema, p: Plan) {
    p.Then? ==>
      && Disciplined(sch, p.rest)
      && p.effect != Some(Committed) && p.effect != Some(RolledBack)
      && (p.effect.Some? && p.effect.value.Wrote? ==>
            p.rest.Then? && p.rest.effect == Some(Published(QueriesOf(sch, p.effect.value.row))))
  }

  lemma {:induction false} DisciplinedIsWellBehaved(sch: Schema, p: Plan)
    requires Disciplined(sch, p)
    ensures WellBehaved(sch, EffectsOf(p), ErrorOf(p))
  {
    if p.Then? && p.ok {
      DisciplinedIsWellBehaved(sch, p.rest);
      var body, tail := EffectsOf(p), EffectsOf(p.rest);
      if p.effect.Some? {
        assert body == [p.effect.value] + tail;
        assert forall i | 1 <= i < |body| :: body[i] == tail[i - 1];
        if p.effect.value.Wrote? && ErrorOf(p).None? {
          assert tail == [p.rest.effect.value] + EffectsOf(p.rest.rest);
        }
      } else {
        assert body == tail;
      }
    }
  }

  lemma TxPublishesFirst(sch: Schema, beginOk: bool, commitOk: bool, body: seq<Effect>, err: Option<Error>)
    requires WellBehaved(sch, body, err)
    ensures PublishedBeforeCommit(sch, TxEffects(beginOk, commitOk, body, err))
    ensures Committed in TxEffects(beginOk, commitOk, body, err) <==> TxError(beginOk, commitOk, err).None?
  {
    var tr := TxEffects(beginOk, commitOk, body, err);
    if beginOk {
      assert forall i | 0 <= i < |body| :: tr[i + 1] == body[i];
      if err.None? && commitOk {
        assert tr[|body| + 1] == Committed;
        forall c, i | 0 <= i < c < |tr| && tr[c] == Committed && tr[i].Wrote?
          ensures exists j | i < j < c :: tr[j] == Published(QueriesOf(sch, tr[i].row))
        {
          assert tr[i] == body[i - 1];
          assert tr[i + 1] == body[i];
        }
      }
    }
  }

  /** An insert commits only after publishing every key of the stored row; it fails exactly if it does not commit. */
  lemma InsertPublishesFirst(sch: Schema, beginOk: bool, commitOk: bool, env: InsertEnv)
    ensures var p := InsertPlan(sch, env); var tr := TxEffects(beginOk, commitOk, EffectsOf(p), ErrorOf(p));
            PublishedBeforeCommit(sch, tr) && (Committed in tr <==> TxError(beginOk, commitOk, ErrorOf(p)).None?)
  {
    var p := InsertPlan(sch, env);
    assert Disciplined(sch, p.rest.rest.rest);
    assert Disciplined(sch, p.rest);
    DisciplinedIsWellBehaved(sch, p);
    TxPublishesFirst(sch, beginOk, commitOk, EffectsOf(p), ErrorOf(p));
  }

  lemma DeletePublishesFirst(sch: Schema, beginOk: bool, commitOk: bool, bean: Row, env: DeleteEnv, where: Query)
    ensures var p := DeletePlan(sch, bean, env, where); var tr := TxEffects(beginOk, commitOk, EffectsOf(p), ErrorOf(p));
            PublishedBeforeCommit(sch, tr) && (Committed in tr <==> TxError(beginOk, commitOk, ErrorOf(p)).None?)
  {
    var p := DeletePlan(sch, bean, env, where);
    if p.Then? && p.rest.Then? {
      assert Disciplined(sch, p.rest.rest);
    }
    DisciplinedIsWellBehaved(sch, p);
    TxPublishesFirst(sch, beginOk, commitOk, EffectsOf(p), ErrorOf(p));
  }

  lemma UpdatePublishesFirst(sch: Schema, beginOk: bool, commitOk: bool, env: UpdateEnv, where: Query)
    ensures var p := UpdatePlan(sch, env, where); var tr := TxEffects(beginOk, commitOk, EffectsOf(p), ErrorOf(p));
            PublishedBeforeCommit(sch, tr) && (Committed in tr <==> TxError(beginOk, commitOk, ErrorOf(p)).None?)
  {
    var p := UpdatePlan(sch, env, where);
    if p.Then? && p.rest.Then? {
      assert Disciplined(sch, p.rest.rest.rest.rest);
      assert Disciplined(sch, p.rest.rest);
    }
    DisciplinedIsWellBehaved(sch, p);
    TxPublishesFirst(sch, beginOk, commitOk, EffectsOf(p), ErrorOf(p));
  }

  // ---- What is written and committed ----

  predicate HasWrite(done: seq<Effect>) {
    exists e | e in done :: e.Wrote?
  }

  lemma TxWrites(beginOk: bool, commitOk: bool, body: seq<Effect>, err: Option<Error>)
    requires Committed !in body
    ensures Committed in TxEffects(beginOk, commitOk, body, err) <==> beginOk && commitOk && err.None?
    ensures HasWrite(TxEffects(beginOk, commitOk, body, err)) <==> beginOk && HasWrite(body)
  {
  }

  /** An insert commits exactly if everything goes well, and has written exactly if a row was inserted. */
  lemma InsertCommitsIff(sch: Schema, beginOk: bool, commitOk: bool, env: InsertEnv)
    ensures var p := InsertPlan(sch, env); var done := TxEffects(beginOk, commitOk, EffectsOf(p), ErrorOf(p));
            var written := beginOk && env.before != Some(false) && env.dbOk && env.affected != 0;
            && (HasWrite(done) <==> written)
            && (Committed in done <==> written && env.publishOk && env.after != Some(false) && commitOk)
  {
    var p, write := InsertPlan(sch, env), Wrote(Insertion, map[], env.stored, None);
    InsertMeets(sch, env);
    assert HasWrite(EffectsOf(p)) <==> write in EffectsOf(p);
    TxWrites(beginOk, commitOk, EffectsOf(p), ErrorOf(p));
  }

  /**
   A removal with a condition commits exactly if its row is loaded and everything goes well, one
   without a condition if its transaction does; a failing statement leaves neither write nor commit.
   */
  lemma DeleteCommitsIff(sch: Schema, beginOk: bool, commitOk: bool, bean: Row, env: DeleteEnv, where: Query)
    ensures var p := DeletePlan(sch, bean, env, where); var done := TxEffects(beginOk, commitOk, EffectsOf(p), ErrorOf(p));
            var acts := QueriesOf(sch, bean) != {};
            var written := beginOk && acts && env.loaded.Some? && env.before != Some(false) && env.dbOk;
            (HasWrite(done) <==> written) &&
            var ends := if acts then written && env.publishOk && env.after != Some(false) else beginOk;
            Committed in done <==> ends && commitOk
  {
    var p := DeletePlan(sch, bean, env, where);
    DeleteMeets(sch, bean, env, where);
    if env.loaded.Some? {
      assert HasWrite(EffectsOf(p)) <==> Wrote(Removal, where, env.loaded.value, None) in EffectsOf(p);
    }
    TxWrites(beginOk, commitOk, EffectsOf(p), ErrorOf(p));
  }

  lemma UpdateCommitsIff(sch: Schema, beginOk: bool, commitOk: bool, env: UpdateEnv, where: Query)
    ensures var p := UpdatePlan(sch, env, where); var done := TxEffects(beginOk, commitOk, EffectsOf(p), ErrorOf(p));
            var acts := env.merged.Some? && QueriesOf(sch, env.merged.value) != {};
            var written := beginOk && acts && env.before != Some(false) && env.dbOk && env.affected != 0;
            (HasWrite(done) <==> written) &&
            var ends := if acts then written && env.publishOk && env.after != Some(false) && env.requery != Some(false)
                        else beginOk && env.merged.Some?;
            Committed in done <==> ends && commitOk
  {
    var p := UpdatePlan(sch, env, where);
    UpdateMeets(sch, env, where);
    if env.merged.Some? {
      assert HasWrite(EffectsOf(p)) <==> Wrote(Modification, where, env.merged.value, env.columns) in EffectsOf(p);
    }
    TxWrites(beginOk, commitOk, EffectsOf(p), ErrorOf(p));
  }
}
