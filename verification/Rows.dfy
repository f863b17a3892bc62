/**
 Rows, their unique columns and unique compound indexes, and the single-row lookups
 that go through the cache. A lookup is a conjunction of `column = value` clauses; it is
 both the SQL condition and the tail of the cache key.
 */
module Rows {
  import opened Wrappers

  /** A cacheable column holds an integer or a string; nothing else has a key form. */
  datatype Val = Num(n: int) | Text(s: string)

  predicate IsZero(v: Val) {
    v == Num(0) || v == Text("")
  }

  /** A bean or a stored row: its columns, an absent column being the zero value. */
  type Row = map<string, Val>

  type Query = map<string, Val>

  /** Columns tagged pk or unique, and the column sets of the unique compound indexes. */
  datatype Schema = Schema(uniques: set<string>, compounds: set<set<string>>)

  type Catalog = map<string, Schema>

  datatype Loc = Loc(table: string, id: int)

  type Database = map<Loc, Row>

  predicate Has(row: Row, c: string) {
    c in row && !IsZero(row[c])
  }

  /** The clauses a bean yields for some columns: zero columns are dropped. */
  function Picked(row: Row, cs: set<string>): Query {
    map c | c in cs && Has(row, c) :: row[c]
  }

  function SingleQueries(cols: set<string>, row: Row): set<Query> {
    set c | c in cols && Has(row, c) :: Picked(row, {c})
  }

  function CompoundQueries(indexes: set<set<string>>, row: Row): set<Query> {
    set cs | cs in indexes && Picked(row, cs) != map[] :: Picked(row, cs)
  }

  /** Every lookup a bean yields: one per non-zero unique column, one per compound index. */
  function QueriesOf(sch: Schema, row: Row): set<Query> {
    SingleQueries(sch.uniques, row) + CompoundQueries(sch.compounds, row)
  }

  ghost predicate Matches(q: Query, row: Row) {
    forall c | c in q :: c in row && row[c] == q[c]
  }

  /** The row holds something in the column: neither nothing, nor the number 0, nor the empty text. */
  predicate Filled(row: Row, c: string) {
    c in row && row[c] != Num(0) && row[c] != Text("")
  }

  /**
   The lookups of a bean, one by one: each is a filled unique column, or what is filled of a
   compound index, with the bean's values; nothing else is.
   */
  lemma LookupIff(sch: Schema, row: Row, q: Query)
    ensures q in QueriesOf(sch, row)
            <==> q.Keys != {} && Matches(q, row)
                 && ((exists c | c in sch.uniques :: q.Keys == {c} && Filled(row, c))
                     || (exists cs | cs in sch.compounds :: q.Keys == set c | c in cs && Filled(row, c)))
  {
    if c :| c in sch.uniques && Has(row, c) && q == Picked(row, {c}) {
      assert q.Keys == {c} && Filled(row, c);
    }
    if cs :| cs in sch.compounds && Picked(row, cs) != map[] && q == Picked(row, cs) {
      assert q.Keys == set c | c in cs && Filled(row, c);
    }
    if q.Keys != {} && Matches(q, row) {
      if c :| c in sch.uniques && q.Keys == {c} && Filled(row, c) {
        assert c in q && q == Picked(row, {c});
      }
      if cs :| cs in sch.compounds && q.Keys == set c | c in cs && Filled(row, c) {
        assert q == Picked(row, cs);
      }
    }
  }

  predicate NonZero(q: Query) {
    q.Keys != {} && forall c | c in q :: !IsZero(q[c])
  }

  /** The columns of `q` are one unique column, or all columns of one compound index. */
  ghost predicate Exact(sch: Schema, q: Query) {
    && NonZero(q)
    && ((exists c | c in sch.uniques :: q.Keys == {c}) || q.Keys in sch.compounds)
  }

  /** Whatever row answers `q`, invalidating that row's own keys invalidates `q`. */
  ghost predicate AlwaysInvalidated(sch: Schema, q: Query) {
    forall row: Row :: Matches(q, row) ==> q in QueriesOf(sch, row)
  }

  lemma PickedAll(row: Row, cs: set<string>)
    requires forall c | c in cs :: Has(row, c)
    ensures Picked(row, cs).Keys == cs
  {
  }

  lemma ExactIsInvalidated(sch: Schema, q: Query, row: Row)
    requires Exact(sch, q) && Matches(q, row)
    ensures q in QueriesOf(sch, row)
  {
    assert forall c | c in q :: Has(row, c);
    assert q == Picked(row, q.Keys);
    if c :| c in sch.uniques && q.Keys == {c} {
      assert c in q;
      assert q == Picked(row, {c});
    }
  }

  function AllColumns(sch: Schema): set<string> {
    sch.uniques + set cs, c | cs in sch.compounds && c in cs :: c
  }

  /** A row that answers `q` and is non-zero in every indexed column. */
  function FullRow(sch: Schema, q: Query): Row {
    (map c | c in AllColumns(sch) :: Num(1)) + q
  }

  lemma FullRowQueries(sch: Schema, q: Query, r: Query)
    requires NonZero(q)
    requires r in QueriesOf(sch, FullRow(sch, q))
    ensures Exact(sch, r)
  {
    var row := FullRow(sch, q);
    assert forall c | c in AllColumns(sch) :: Has(row, c);
    if c :| c in sch.uniques && Has(row, c) && r == Picked(row, {c}) {
      assert r.Keys == {c};
    } else {
      var cs :| cs in sch.compounds && Picked(row, cs) != map[] && r == Picked(row, cs);
      assert forall c | c in cs :: c in AllColumns(sch);
      PickedAll(row, cs);
    }
  }

  /**
   A lookup is always invalidated exactly when its columns are a unique column or a whole
   compound index: giving part of a compound index is what breaks it.
   */
  lemma InvalidatedIffExact(sch: Schema, q: Query)
    requires NonZero(q)
    ensures AlwaysInvalidated(sch, q) <==> Exact(sch, q)
  {
    if Exact(sch, q) {
      forall row: Row | Matches(q, row) ensures q in QueriesOf(sch, row) {
        ExactIsInvalidated(sch, q, row);
      }
    }
    if AlwaysInvalidated(sch, q) {
      var row := FullRow(sch, q);
      assert Matches(q, row);
      FullRowQueries(sch, q, q);
    }
  }

  /** The reader gives each compound index in full or leaves it out. */
  predicate WholeOrNothing(sch: Schema, bean: Row) {
    forall cs | cs in sch.compounds ::
      (forall c | c in cs :: Has(bean, c)) || (forall c | c in cs :: !Has(bean, c))
  }

  /** Any lookup a whole-or-nothing reader may use is a key of any row that answers it. */
  lemma LookupIsRowKey(sch: Schema, bean: Row, row: Row, q: Query)
    requires WholeOrNothing(sch, bean)
    requires q in QueriesOf(sch, bean) && Matches(q, row)
    ensures Exact(sch, q) && q in QueriesOf(sch, row)
  {
    if c :| c in sch.uniques && Has(bean, c) && q == Picked(bean, {c}) {
      assert q.Keys == {c};
    } else {
      var cs :| cs in sch.compounds && Picked(bean, cs) != map[] && q == Picked(bean, cs);
      var c :| c in q;
      assert c in cs && Has(bean, c);
      PickedAll(bean, cs);
    }
    ExactIsInvalidated(sch, q, row);
  }

  predicate Whole(row: Row, cs: set<string>) {
    forall c | c in cs :: Has(row, c)
  }

  predicate SameValues(bean: Row, row: Row, cs: set<string>) {
    forall c | c in cs :: SameValue(bean, row, c)
  }

  predicate SameValue(bean: Row, row: Row, c: string) {
    c in bean && c in row && bean[c] == row[c]
  }

  /**
   The bean has the row's value in each unique column that is not zero in the row, and in
   each column of every compound index that is nowhere zero in the row.
   */
  predicate SameKeyColumns(sch: Schema, bean: Row, row: Row) {
    && (forall c | c in sch.uniques && Has(row, c) :: SameValue(bean, row, c))
    && (forall cs | cs in sch.compounds && Whole(row, cs) :: SameValues(bean, row, cs))
  }

  lemma SameColumnsMatch(sch: Schema, bean: Row, row: Row, q: Query)
    requires SameKeyColumns(sch, bean, row) && Exact(sch, q) && Matches(q, row)
    ensures Matches(q, bean)
  {
    assert forall c | c in q :: Has(row, c);
    if c :| c in sch.uniques && q.Keys == {c} {
      assert forall d | d in q :: d in q.Keys && SameValue(bean, row, d);
    } else {
      assert Whole(row, q.Keys);
      assert forall d | d in q :: d in q.Keys && SameValue(bean, row, d);
    }
  }

  /** A key column in which the bean differs from the row belongs to a lookup the bean does not yield. */
  lemma DifferentColumnIsMissed(sch: Schema, bean: Row, row: Row) returns (q: Query)
    requires !SameKeyColumns(sch, bean, row)
    ensures Exact(sch, q) && Matches(q, row) && q !in QueriesOf(sch, bean)
  {
    var d: string;
    if c :| c in sch.uniques && Has(row, c) && !SameValue(bean, row, c) {
      d, q := c, Picked(row, {c});
      assert q.Keys == {c};
    } else {
      var cs :| cs in sch.compounds && Whole(row, cs) && !SameValues(bean, row, cs);
      d :| d in cs && !SameValue(bean, row, d);
      q := Picked(row, cs);
      PickedAll(row, cs);
    }
    assert d in q && q[d] == row[d];
    if q in QueriesOf(sch, bean) {
      QueriesHoldBeanValues(sch, bean, q, d);
    }
  }

  lemma QueriesHoldBeanValues(sch: Schema, bean: Row, q: Query, d: string)
    requires q in QueriesOf(sch, bean) && d in q
    ensures d in bean && q[d] == bean[d]
  {
  }

  /**
   Publishing the lookups of `bean` reaches every exact lookup `row` answers exactly when
   the bean has the same values as the row in the row's key columns.
   */
  lemma PublishReachesRowIff(sch: Schema, bean: Row, row: Row)
    ensures (forall q: Query :: Exact(sch, q) && Matches(q, row) ==> q in QueriesOf(sch, bean))
            <==> SameKeyColumns(sch, bean, row)
  {
    if SameKeyColumns(sch, bean, row) {
      forall q: Query | Exact(sch, q) && Matches(q, row) ensures q in QueriesOf(sch, bean) {
        SameColumnsMatch(sch, bean, row, q);
        ExactIsInvalidated(sch, q, bean);
      }
    } else {
      var q := DifferentColumnIsMissed(sch, bean, row);
    }
  }

  // ---- Lookups against the committed database ----

  /** What the cache holds for a lookup: the "null" marker, a marshalled row, or a token. */
  datatype Blob = NullBlob | RowBlob(row: Row) | TokenBlob(token: Token)

  datatype Token = Token(secret: string, expire: int)

  /** `timeout` is the life of a new expiry; a token closer to its expiry than `maxRefresh` is renewed. */
  datatype Policy = Policy(timeout: int, maxRefresh: int)

  /** Cache keys: `table::query`, and `h:token::id` for login tokens. */
  datatype Key = RowKey(table: string, query: Query) | TokenKey(id: int)

  ghost predicate Answers(k: Key, l: Loc, row: Row) {
    k.RowKey? && l.table == k.table && Matches(k.query, row)
  }

  ghost predicate CoveredKey(cat: Catalog, k: Key) {
    k.RowKey? && k.table in cat && Exact(cat[k.table], k.query)
  }

  /** The unique indexes hold: an exact lookup is answered by at most one row. */
  ghost predicate UniqueDb(cat: Catalog, db: Database) {
    forall k: Key, l1: Loc, l2: Loc ::
      CoveredKey(cat, k) && l1 in db && l2 in db && Answers(k, l1, db[l1]) && Answers(k, l2, db[l2])
      ==> l1 == l2
  }

  /** The direct lookup: the row the condition selects, or the not-found marker. */
  ghost function Lookup(db: Database, k: Key): Blob {
    if exists l: Loc :: l in db && Answers(k, l, db[l]) then
      var l: Loc :| l in db && Answers(k, l, db[l]);
      RowBlob(db[l])
    else NullBlob
  }

  lemma LookupFinds(cat: Catalog, db: Database, k: Key, l: Loc)
    requires UniqueDb(cat, db) && CoveredKey(cat, k)
    requires l in db && Answers(k, l, db[l])
    ensures Lookup(db, k) == RowBlob(db[l])
  {
  }

  /** Every exact lookup answered by `row` is among the published keys. */
  ghost predicate Announced(cat: Catalog, l: Loc, row: Row, published: set<Key>) {
    forall k: Key :: CoveredKey(cat, k) && Answers(k, l, row) ==> k in published
  }

  /** A lookup's answer changes only if a row it selects, before or after, was changed. */
  lemma ChangeIsAnswered(cat: Catalog, db: Database, db': Database, k: Key)
    requires UniqueDb(cat, db) && UniqueDb(cat, db') && CoveredKey(cat, k)
    requires Lookup(db, k) != Lookup(db', k)
    ensures exists l: Loc ::
              && !(l in db && l in db' && db[l] == db'[l])
              && ((l in db && Answers(k, l, db[l])) || (l in db' && Answers(k, l, db'[l])))
  {
  }

  /** The database after a transaction's pending changes. */
  function Applied(db: Database, writes: map<Loc, Option<Row>>): Database {
    map l | l in db.Keys + writes.Keys && (l in writes ==> writes[l].Some?) ::
      if l in writes then writes[l].value else db[l]
  }

  /** Committing announced changes alters only the answers of announced keys. */
  lemma CommitChangesOnlyAnnounced(cat: Catalog, db: Database, writes: map<Loc, Option<Row>>,
                                   published: set<Key>, k: Key)
    requires UniqueDb(cat, db) && UniqueDb(cat, Applied(db, writes)) && CoveredKey(cat, k)
    requires forall l | l in writes && writes[l].Some? :: Announced(cat, l, writes[l].value, published)
    requires forall l | l in writes && l in db :: Announced(cat, l, db[l], published)
    requires Lookup(db, k) != Lookup(Applied(db, writes), k)
    ensures k in published
  {
    var db' := Applied(db, writes);
    ChangeIsAnswered(cat, db, db', k);
    var l: Loc :|
              && !(l in db && l in db' && db[l] == db'[l])
              && ((l in db && Answers(k, l, db[l])) || (l in db' && Answers(k, l, db'[l])));
    assert l in writes;
  }
}
