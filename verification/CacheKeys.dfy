/**
 The text of lookups and memory keys. Map iteration is in no fixed order, so the methods
 choose an arbitrary one; their contracts say the text does not depend on it.
 */
module CacheKeys {
  import opened Rows
  import opened Text

  function ValText(v: Val): string {
    match v
    case Num(n) => IntText(n)
    case Text(s) => "'" + s + "'"
  }

  function Clause(c: string, v: Val): string {
    c + "=" + ValText(v)
  }

  function MemKey(table: string, query: string): string {
    table + "::" + query
  }

  // ---- The text of a lookup, for a given order of its columns ----

  ghost predicate Listing(order: seq<string>, cs: set<string>) {
    multiset(order) == multiset(cs)
  }

  function Clauses(q: Query, order: seq<string>): seq<string> {
    if order == [] then []
    else [if order[0] in q then Clause(order[0], q[order[0]]) else ""] + Clauses(q, order[1..])
  }

  function QueryText(clauses: seq<string>): string {
    Join(OrderByLength(Sort(clauses)), " AND ")
  }

  lemma ListingMembers(order: seq<string>, cs: set<string>)
    requires Listing(order, cs)
    ensures forall c :: c in order <==> c in cs
  {
    forall c ensures c in order <==> c in cs {
      assert c in order <==> c in multiset(order);
    }
  }

  lemma {:induction false} ClausesAppend(q: Query, a: seq<string>, b: seq<string>)
    ensures Clauses(q, a + b) == Clauses(q, a) + Clauses(q, b)
  {
    if a == [] {
      assert a + b == b;
    } else {
      assert (a + b)[1..] == a[1..] + b;
      ClausesAppend(q, a[1..], b);
    }
  }

  lemma MoveToFront(q: Query, l: seq<string>, x: string, r: seq<string>)
    ensures multiset(Clauses(q, l + ([x] + r))) == multiset(Clauses(q, [x])) + multiset(Clauses(q, l + r))
  {
    ClausesAppend(q, l, r);
    ClausesAppend(q, l, [x] + r);
    ClausesAppend(q, [x], r);
  }

  lemma {:induction false} ClausesSameMultiset(q: Query, a: seq<string>, b: seq<string>)
    requires multiset(a) == multiset(b)
    ensures multiset(Clauses(q, a)) == multiset(Clauses(q, b))
    decreases |a|
  {
    SameMembers(a, b);
    if a != [] {
      var x := a[0];
      var al, ar := PullOut(a, x);
      var bl, br := PullOut(b, x);
      assert |a| == |al + ar| + 1;
      ClausesSameMultiset(q, al + ar, bl + br);
      MoveToFront(q, al, x, ar);
      MoveToFront(q, bl, x, br);
    }
  }

  ghost function SomeOrder(cs: set<string>): (order: seq<string>)
    ensures Listing(order, cs)
  {
    if cs == {} then []
    else
      var c :| c in cs;
      [c] + SomeOrder(cs - {c})
  }

  /** The text of a lookup; TextIsCanonical shows the order chosen here does not matter. */
  ghost function TextOf(q: Query): string {
    QueryText(Clauses(q, SomeOrder(q.Keys)))
  }

  /** The text of a lookup is the same for every order of its columns. */
  lemma TextIsCanonical(q: Query, order: seq<string>)
    requires Listing(order, q.Keys)
    ensures QueryText(Clauses(q, order)) == TextOf(q)
  {
    var other := SomeOrder(q.Keys);
    ClausesSameMultiset(q, order, other);
    SortCanonical(Clauses(q, order), Clauses(q, other));
  }

  lemma TextIsEmptyIff(q: Query)
    ensures TextOf(q) == "" <==> q == map[]
  {
  }

  lemma TakeColumn(q: Query, order: seq<string>, rest: set<string>, k: string)
    requires k in q && k in rest && Listing(order, q.Keys - rest)
    ensures Listing(order + [k], q.Keys - (rest - {k}))
    ensures Clauses(q, order + [k]) == Clauses(q, order) + [Clause(k, q[k])]
  {
    assert q.Keys - (rest - {k}) == (q.Keys - rest) + {k};
    ClausesAppend(q, order, [k]);
    assert Clauses(q, [k]) == [Clause(k, q[k])];
  }

  /**
   The text of a unique compound index: its non-zero columns, each as a clause, in any
   iteration order of the column map. An index that is not unique has none.
   */
  method MakeQuery(unique: bool, columns: Row) returns (r: string)
    ensures !unique ==> r == ""
    ensures unique ==> r == TextOf(Picked(columns, columns.Keys))
  {
    if !unique {
      return "";
    }
    ghost var q := Picked(columns, columns.Keys);
    var rest := columns.Keys;
    var list: seq<string> := [];
    ghost var order: seq<string> := [];
    while rest != {}
      invariant rest <= columns.Keys
      invariant Listing(order, q.Keys - rest)
      invariant list == Clauses(q, order)
    {
      var k :| k in rest;
      if Has(columns, k) {
        TakeColumn(q, order, rest, k);
        list := list + [Clause(k, columns[k])];
        order := order + [k];
      } else {
        assert q.Keys - (rest - {k}) == q.Keys - rest;
      }
      rest := rest - {k};
    }
    assert q.Keys - rest == q.Keys;
    TextIsCanonical(q, order);
    r := QueryText(list);
  }

  ghost predicate Says(qs: set<Query>, s: string) {
    exists q | q in qs :: s == TextOf(q)
  }

  /** The list of lookup texts of a bean, shortest first; `extra` are a reader's own conditions. */
  ghost predicate IsValues(sch: Schema, bean: Row, extra: seq<string>, list: seq<string>) {
    && (forall s :: s in list <==> s in extra || Says(QueriesOf(sch, bean), s))
    && ShortestFirst(list)
  }

  lemma TextOfOne(q: Query, c: string)
    requires q.Keys == {c}
    ensures TextOf(q) == Clause(c, q[c])
  {
    assert multiset([c]) == multiset(q.Keys);
    TextIsCanonical(q, [c]);
    assert Clauses(q, [c]) == [Clause(c, q[c])];
  }

  lemma SingleText(bean: Row, c: string)
    requires Has(bean, c)
    ensures TextOf(Picked(bean, {c})) == Clause(c, bean[c])
  {
    assert Picked(bean, {c}).Keys == {c};
    TextOfOne(Picked(bean, {c}), c);
  }

  function Restricted(bean: Row, cs: set<string>): Row {
    map c | c in cs && c in bean :: bean[c]
  }

  lemma RestrictedPicks(bean: Row, cs: set<string>)
    ensures Picked(Restricted(bean, cs), Restricted(bean, cs).Keys) == Picked(bean, cs)
  {
  }

  lemma SaysUnion(a: set<Query>, b: set<Query>, s: string)
    ensures Says(a + b, s) <==> Says(a, s) || Says(b, s)
  {
  }

  lemma SingleStep(bean: Row, cs: set<string>, c: string)
    ensures SingleQueries(cs + {c}, bean)
            == SingleQueries(cs, bean) + (if Has(bean, c) then {Picked(bean, {c})} else {})
  {
  }

  lemma SingleSays(bean: Row, cs: set<string>, c: string, s: string)
    ensures Says(SingleQueries(cs + {c}, bean), s)
            <==> Says(SingleQueries(cs, bean), s) || (Has(bean, c) && s == Clause(c, bean[c]))
  {
    SingleStep(bean, cs, c);
    if Has(bean, c) {
      SingleText(bean, c);
      SaysUnion(SingleQueries(cs, bean), {Picked(bean, {c})}, s);
    }
  }

  method FindAll(uniques: set<string>, bean: Row) returns (qs: seq<string>)
    ensures forall s :: s in qs <==> Says(SingleQueries(uniques, bean), s)
  {
    qs := [];
    var rest := uniques;
    while rest != {}
      invariant rest <= uniques
      invariant forall s :: s in qs <==> Says(SingleQueries(uniques - rest, bean), s)
    {
      var c :| c in rest;
      assert uniques - (rest - {c}) == (uniques - rest) + {c};
      forall s { SingleSays(bean, uniques - rest, c, s); }
      if Has(bean, c) {
        qs := qs + [Clause(c, bean[c])];
      }
      rest := rest - {c};
    }
    assert uniques - rest == uniques;
  }

  /** One index: its text, empty if the bean is zero in all its columns. */
  method IndexText(cs: set<string>, bean: Row) returns (v: string)
    ensures v == TextOf(Picked(bean, cs)) && (v == "" <==> Picked(bean, cs) == map[])
  {
    v := MakeQuery(true, Restricted(bean, cs));
    RestrictedPicks(bean, cs);
    TextIsEmptyIff(Picked(bean, cs));
  }

  /** `qs` lists the texts of the compound indexes looked at so far. */
  ghost predicate Lists(qs: seq<string>, indexes: set<set<string>>, bean: Row) {
    forall s :: s in qs <==> Says(CompoundQueries(indexes, bean), s)
  }

  lemma ListsStep(qs: seq<string>, indexes: set<set<string>>, bean: Row, cs: set<string>, v: string)
    requires Lists(qs, indexes, bean) && v == TextOf(Picked(bean, cs))
    ensures Lists(if Picked(bean, cs) == map[] then qs else qs + [v], indexes + {cs}, bean)
  {
  }

  function Elements(indexes: seq<set<string>>): set<set<string>> {
    set cs | cs in indexes
  }

  lemma ElementsStep(indexes: seq<set<string>>, i: nat)
    requires i < |indexes|
    ensures Elements(indexes[..i + 1]) == Elements(indexes[..i]) + {indexes[i]}
  {
  }

  method FindCompounds(indexes: seq<set<string>>, bean: Row) returns (qs: seq<string>)
    ensures Lists(qs, Elements(indexes), bean)
  {
    qs := [];
    for i := 0 to |indexes|
      invariant Lists(qs, Elements(indexes[..i]), bean)
    {
      var v := IndexText(indexes[i], bean);
      ListsStep(qs, Elements(indexes[..i]), bean, indexes[i], v);
      ElementsStep(indexes, i);
      if v != "" {
        qs := qs + [v];
      }
    }
    assert indexes[..|indexes|] == indexes;
  }

  /** The lookups of a bean; `indexes` is its own list of unique compound indexes. */
  method Values(sch: Schema, indexes: seq<set<string>>, bean: Row, extra: seq<string>) returns (list: seq<string>)
    requires Elements(indexes) == sch.compounds
    ensures IsValues(sch, bean, extra, list)
  {
    var singles := FindAll(sch.uniques, bean);
    var compounds := FindCompounds(indexes, bean);
    var qs := singles + compounds + extra;
    list := OrderByLength(qs);
    OrderByLengthShortestFirst(qs);
    SameMembers(list, qs);
    forall s { SaysUnion(SingleQueries(sch.uniques, bean), CompoundQueries(sch.compounds, bean), s); }
  }

  /** Where the bean is non-zero in an indexed column, the row holds the same value. */
  predicate AgreesWith(sch: Schema, bean: Row, row: Row) {
    forall c | c in AllColumns(sch) && Has(bean, c) :: c in row && row[c] == bean[c]
  }

  lemma AgreeingRowMatches(sch: Schema, bean: Row, row: Row, q: Query)
    requires AgreesWith(sch, bean, row) && q in QueriesOf(sch, bean)
    ensures Matches(q, row)
  {
  }

  /**
   Any text a reader may use, not only the first of its list, is among the texts that a
   writer of a row agreeing with the reader's bean publishes.
   */
  lemma LookupTextIsPublished(sch: Schema, bean: Row, row: Row, reader: seq<string>, writer: seq<string>)
    requires WholeOrNothing(sch, bean) && AgreesWith(sch, bean, row)
    requires IsValues(sch, bean, [], reader) && IsValues(sch, row, [], writer)
    ensures forall s | s in reader :: s in writer
  {
    forall s | s in reader ensures s in writer {
      assert Says(QueriesOf(sch, bean), s);
      var q :| q in QueriesOf(sch, bean) && s == TextOf(q);
      AgreeingRowMatches(sch, bean, row, q);
      LookupIsRowKey(sch, bean, row, q);
      assert Says(QueriesOf(sch, row), s);
    }
  }

  /** Distinct (table, column, value) triples have distinct memory keys. */
  lemma MemKeyInjective(t1: string, c1: string, v1: Val, t2: string, c2: string, v2: Val)
    requires ':' !in t1 && ':' !in t2 && '=' !in c1 && '=' !in c2
    requires MemKey(t1, Clause(c1, v1)) == MemKey(t2, Clause(c2, v2))
    ensures t1 == t2 && c1 == c2 && v1 == v2
  {
    assert MemKey(t1, Clause(c1, v1)) == t1 + [':'] + (":" + Clause(c1, v1));
    assert MemKey(t2, Clause(c2, v2)) == t2 + [':'] + (":" + Clause(c2, v2));
    SplitUnique(t1, ":" + Clause(c1, v1), t2, ":" + Clause(c2, v2), ':');
    assert (":" + Clause(c1, v1))[1..] == Clause(c1, v1);
    assert (":" + Clause(c2, v2))[1..] == Clause(c2, v2);
    assert Clause(c1, v1) == c1 + ['='] + ValText(v1);
    assert Clause(c2, v2) == c2 + ['='] + ValText(v2);
    SplitUnique(c1, ValText(v1), c2, ValText(v2), '=');
    ValTextInjective(v1, v2);
  }

  lemma ValTextInjective(v: Val, w: Val)
    requires ValText(v) == ValText(w)
    ensures v == w
  {
    ValTextStart(v);
    ValTextStart(w);
    if v.Num? {
      IntTextInjective(v.n, w.n);
    } else {
      assert ValText(v)[1..|ValText(v)| - 1] == v.s;
      assert ValText(w)[1..|ValText(w)| - 1] == w.s;
    }
  }

  lemma ValTextStart(v: Val)
    ensures ValText(v) != "" && (ValText(v)[0] == '\'' <==> v.Text?)
  {
  }
}
