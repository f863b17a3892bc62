/**
 Memory keys are texts. Different lookups and tokens have different texts, so the keys of
 CacheNode stand for the texts the caches and the messages really hold.
 */
module KeyTexts {
  import opened CacheKeys
  import opened Rows
  import opened Text

  const SEPARATOR := " AND "

  /** The text of a key; `tokens` is the hash that holds the login tokens. */
  ghost function KeyText(tokens: string, k: Key): string {
    match k
    case RowKey(table, query) => MemKey(table, TextOf(query))
    case TokenKey(id) => MemKey(tokens, IntText(id))
  }

  const MARK := "' AND "

  /** A quoted value that does not look like the end of its own clause. */
  predicate NoMark(s: string) {
    |s| < 6 || (s[..6] != MARK && NoMark(s[1..]))
  }

  lemma {:induction false} NoMarkAt(s: string, i: nat)
    requires NoMark(s) && i + 6 <= |s|
    ensures s[i..i + 6] != MARK
  {
    if i > 0 {
      NoMarkAt(s[1..], i - 1);
      var a, b := s[1..][i - 1..i + 5], s[i..i + 6];
      assert |a| == |b| && forall j | 0 <= j < 6 :: a[j] == b[j];
    }
  }

  predicate PlainQuery(q: Query) {
    q != map[] && forall c | c in q :: '=' !in c && PlainVal(q[c])
  }

  predicate PlainKey(k: Key) {
    k.RowKey? ==> ':' !in k.table && PlainQuery(k.query)
  }

  // ---- Where a value ends ----

  /** What may follow a clause. */
  predicate Ends(r: string) {
    r == "" || SEPARATOR <= r
  }

  /** If the shorter of two quoted values ends where it should, the longer contains the mark. */
  lemma MarkInside(v: string, r: string, w: string, t: string)
    requires Ends(r) && v + "'" + r == w + "'" + t && |v| < |w|
    ensures |v| + 6 <= |w| && w[|v|..|v| + 6] == MARK
  {
    var s := v + "'" + r;
    var j := |w| - |v|;
    assert s[|w|] == '\'';
    assert |s| == |v| + 1 + |r| == |w| + 1 + |t|;
    assert s[|v|..|v| + 6] == "'" + r[..5] == MARK;
    assert forall i | 0 <= i < 6 :: s[|v| + i] == s[|v|..|v| + 6][i] == MARK[i];
    assert s[|v| + j] == s[|w|];
    assert w[|v|..|v| + 6] == s[|v|..|v| + 6];
  }

  lemma NotShorter(v: string, r: string, w: string, t: string)
    requires NoMark(w) && Ends(r) && v + "'" + r == w + "'" + t
    ensures |v| >= |w|
  {
    if |v| < |w| {
      MarkInside(v, r, w, t);
      NoMarkAt(w, |v|);
    }
  }

  lemma SpaceInside(v: string, r: string, w: string, t: string)
    requires Ends(r) && v + r == w + t && |v| < |w|
    ensures ' ' in w
  {
    assert |v + r| == |v| + |r| == |w| + |t|;
    assert r[0] == SEPARATOR[0];
    assert (v + r)[|v|] == (w + t)[|v|] == w[|v|];
  }

  lemma NumberNotShorter(v: string, r: string, b: int, t: string)
    requires Ends(r) && v + r == IntText(b) + t
    ensures |v| >= |IntText(b)|
  {
    if |v| < |IntText(b)| {
      SpaceInside(v, r, IntText(b), t);
    }
  }

  lemma SameLengthSplit(v: string, r: string, w: string, t: string)
    requires v + r == w + t && |v| == |w|
    ensures v == w && r == t
  {
    assert (v + r)[..|v|] == v && (w + t)[..|w|] == w;
    assert (v + r)[|v|..] == r && (w + t)[|w|..] == t;
  }

  lemma QuotedSplit(v: string, r: string, w: string, t: string)
    requires NoMark(v) && NoMark(w) && Ends(r) && Ends(t) && "'" + v + "'" + r == "'" + w + "'" + t
    ensures v == w && r == t
  {
    assert "'" + v + "'" + r == "'" + (v + "'" + r) && "'" + w + "'" + t == "'" + (w + "'" + t);
    SameLengthSplit("'", v + "'" + r, "'", w + "'" + t);
    NotShorter(v, r, w, t);
    NotShorter(w, t, v, r);
    SameLengthSplit(v + "'", r, w + "'", t);
    SameLengthSplit(v, "'", w, "'");
  }

  lemma NumberSplit(a: int, r: string, b: int, t: string)
    requires Ends(r) && Ends(t) && IntText(a) + r == IntText(b) + t
    ensures a == b && r == t
  {
    NumberNotShorter(IntText(a), r, b, t);
    NumberNotShorter(IntText(b), t, a, r);
    SameLengthSplit(IntText(a), r, IntText(b), t);
    IntTextInjective(a, b);
  }

  predicate PlainVal(v: Val) {
    v.Text? ==> NoMark(v.s)
  }

  lemma ValueSplit(v: Val, r: string, w: Val, t: string)
    requires PlainVal(v) && PlainVal(w) && Ends(r) && Ends(t) && ValText(v) + r == ValText(w) + t
    ensures v == w && r == t
  {
    ValTextStart(v);
    ValTextStart(w);
    assert (ValText(v) + r)[0] == ValText(v)[0] && (ValText(w) + t)[0] == ValText(w)[0];
    if v.Num? {
      NumberSplit(v.n, r, w.n, t);
    } else {
      QuotedSplit(v.s, r, w.s, t);
    }
  }

  lemma ClauseForm(c: string, v: Val, r: string)
    ensures Clause(c, v) + r == c + ['='] + (ValText(v) + r)
  {
  }

  lemma ClauseSplit(c: string, v: Val, r: string, d: string, w: Val, t: string)
    requires '=' !in c && '=' !in d && PlainVal(v) && PlainVal(w)
    requires Ends(r) && Ends(t) && Clause(c, v) + r == Clause(d, w) + t
    ensures c == d && v == w && r == t
  {
    ClauseForm(c, v, r);
    ClauseForm(d, w, t);
    SplitUnique(c, ValText(v) + r, d, ValText(w) + t, '=');
    ValueSplit(v, r, w, t);
  }

  lemma ClauseInjective(c: string, v: Val, d: string, w: Val)
    requires '=' !in c && '=' !in d && PlainVal(v) && PlainVal(w) && Clause(c, v) == Clause(d, w)
    ensures c == d && v == w
  {
    ClauseSplit(c, v, "", d, w, "");
  }

  // ---- Lists of clauses ----

  ghost predicate ClauseOf(q: Query, s: string) {
    exists c | c in q :: s == Clause(c, q[c])
  }

  function Rest(tail: seq<string>): string {
    if tail == [] then "" else SEPARATOR + Join(tail, SEPARATOR)
  }

  lemma JoinSplits(xs: seq<string>)
    requires xs != []
    ensures Join(xs, SEPARATOR) == xs[0] + Rest(xs[1..]) && Ends(Rest(xs[1..]))
  {
  }

  lemma RestSplits(a: seq<string>, b: seq<string>)
    requires Rest(a) == Rest(b)
    ensures a == [] <==> b == []
    ensures Join(a, SEPARATOR) == Join(b, SEPARATOR)
  {
    if a != [] && b != [] {
      SameLengthSplit(SEPARATOR, Join(a, SEPARATOR), SEPARATOR, Join(b, SEPARATOR));
    }
  }

  /** Every part is a clause of the lookup. */
  ghost predicate From(q: Query, xs: seq<string>) {
    forall x | x in xs :: ClauseOf(q, x)
  }

  lemma HeadsEqual(p: Query, q: Query, x: string, r: string, y: string, t: string)
    requires PlainQuery(p) && PlainQuery(q) && ClauseOf(p, x) && ClauseOf(q, y)
    requires Ends(r) && Ends(t) && x + r == y + t
    ensures x == y && r == t
  {
    var c :| c in p && x == Clause(c, p[c]);
    var d :| d in q && y == Clause(d, q[d]);
    ClauseSplit(c, p[c], r, d, q[d], t);
  }

  lemma {:induction false} JoinInjective(p: Query, q: Query, xs: seq<string>, ys: seq<string>)
    requires PlainQuery(p) && PlainQuery(q) && From(p, xs) && From(q, ys)
    requires xs != [] && ys != [] && Join(xs, SEPARATOR) == Join(ys, SEPARATOR)
    ensures xs == ys
  {
    JoinSplits(xs);
    JoinSplits(ys);
    var xs', ys' := xs[1..], ys[1..];
    HeadsEqual(p, q, xs[0], Rest(xs'), ys[0], Rest(ys'));
    RestSplits(xs', ys');
    assert xs == [xs[0]] + xs' && ys == [ys[0]] + ys';
    if xs' != [] {
      assert forall x | x in xs' :: x in xs;
      assert forall y | y in ys' :: y in ys;
      JoinInjective(p, q, xs', ys');
    }
  }

  lemma {:induction false} ClausesAre(q: Query, order: seq<string>, s: string)
    requires forall c | c in order :: c in q
    ensures s in Clauses(q, order) <==> exists c | c in order :: s == Clause(c, q[c])
  {
    if order != [] {
      assert order == [order[0]] + order[1..];
      ClausesAre(q, order[1..], s);
    }
  }

  /** The clauses a text is joined from. */
  ghost function Parts(q: Query): (parts: seq<string>)
    ensures TextOf(q) == Join(parts, SEPARATOR)
  {
    OrderByLength(Sort(Clauses(q, SomeOrder(q.Keys))))
  }

  lemma PartsAre(q: Query, s: string)
    ensures s in Parts(q) <==> ClauseOf(q, s)
  {
    var order := SomeOrder(q.Keys);
    ListingMembers(order, q.Keys);
    SameMembers(Parts(q), Clauses(q, order));
    ClausesAre(q, order, s);
  }

  lemma SamePartsContained(p: Query, q: Query, c: string)
    requires PlainQuery(p) && PlainQuery(q) && Parts(p) == Parts(q) && c in p
    ensures c in q && q[c] == p[c]
  {
    var s := Clause(c, p[c]);
    PartsAre(p, s);
    PartsAre(q, s);
    var d :| d in q && s == Clause(d, q[d]);
    ClauseInjective(c, p[c], d, q[d]);
  }

  lemma PartsFrom(q: Query)
    requires q != map[]
    ensures From(q, Parts(q)) && Parts(q) != []
  {
    forall s | s in Parts(q) ensures ClauseOf(q, s) { PartsAre(q, s); }
    var c :| c in q;
    PartsAre(q, Clause(c, q[c]));
  }

  lemma TextInjective(p: Query, q: Query)
    requires PlainQuery(p) && PlainQuery(q) && TextOf(p) == TextOf(q)
    ensures p == q
  {
    PartsFrom(p);
    PartsFrom(q);
    JoinInjective(p, q, Parts(p), Parts(q));
    forall c | c in p ensures c in q && q[c] == p[c] { SamePartsContained(p, q, c); }
    forall c | c in q ensures c in p && p[c] == q[c] { SamePartsContained(q, p, c); }
  }

  lemma JoinHasEquals(q: Query, xs: seq<string>)
    requires xs != [] && From(q, xs)
    ensures '=' in Join(xs, SEPARATOR)
  {
    JoinSplits(xs);
    assert xs[0] in xs && ClauseOf(q, xs[0]);
    var d :| d in q && xs[0] == Clause(d, q[d]);
    var after := Rest(xs[1..]);
    ClauseForm(d, q[d], after);
    Inside(d, '=', ValText(q[d]) + after);
  }

  lemma TextHasEquals(q: Query)
    requires q != map[]
    ensures '=' in TextOf(q)
  {
    PartsFrom(q);
    JoinHasEquals(q, Parts(q));
  }

  lemma Inside(a: string, c: char, b: string)
    ensures c in a + [c] + b
  {
  }

  lemma InMemKey(table: string, text: string, c: char)
    ensures c in MemKey(table, text) <==> c in table || c == ':' || c in text
  {
  }

  lemma MemKeyForm(table: string, text: string)
    ensures MemKey(table, text) == table + [':'] + (":" + text)
  {
  }

  lemma RowTextInjective(t: string, p: Query, u: string, q: Query)
    requires ':' !in t && ':' !in u && PlainQuery(p) && PlainQuery(q)
    requires MemKey(t, TextOf(p)) == MemKey(u, TextOf(q))
    ensures t == u && p == q
  {
    MemKeyForm(t, TextOf(p));
    MemKeyForm(u, TextOf(q));
    SplitUnique(t, ":" + TextOf(p), u, ":" + TextOf(q), ':');
    SameLengthSplit(":", TextOf(p), ":", TextOf(q));
    TextInjective(p, q);
  }

  lemma RowIsNotToken(tokens: string, row: Key, token: Key)
    requires '=' !in tokens && row.RowKey? && token.TokenKey? && PlainKey(row)
    ensures KeyText(tokens, row) != KeyText(tokens, token)
  {
    TextHasEquals(row.query);
    InMemKey(row.table, TextOf(row.query), '=');
    InMemKey(tokens, IntText(token.id), '=');
    NoEquals(token.id);
  }

  lemma NoEquals(n: int)
    ensures '=' !in IntText(n)
  {
  }

  /**
   Keys of lookups and of tokens have the same text only if they are the same key, for table
   names without a colon, column names without `=` and string values that do not contain a
   quote followed by ` AND `.
   */
  lemma KeyTextInjective(tokens: string, k: Key, l: Key)
    requires '=' !in tokens && PlainKey(k) && PlainKey(l) && KeyText(tokens, k) == KeyText(tokens, l)
    ensures k == l
  {
    if k.RowKey? && l.RowKey? {
      RowTextInjective(k.table, k.query, l.table, l.query);
    } else if k.TokenKey? && l.TokenKey? {
      SameLengthSplit(tokens + "::", IntText(k.id), tokens + "::", IntText(l.id));
      IntTextInjective(k.id, l.id);
    } else if k.RowKey? {
      RowIsNotToken(tokens, k, l);
    } else {
      RowIsNotToken(tokens, l, k);
    }
  }

  lemma TextOfTwo(q: Query, c: string, d: string)
    requires c != d && q.Keys == {c, d}
    requires SortedClauses(Clause(c, q[c]), Clause(d, q[d]))
    ensures TextOf(q) == Clause(c, q[c]) + SEPARATOR + Clause(d, q[d])
  {
    PairListing(c, d, q.Keys);
    TextIsCanonical(q, [c, d]);
    ClausesPair(q, c, d);
    SortedPair(Clause(c, q[c]), Clause(d, q[d]));
    JoinSplits([Clause(c, q[c]), Clause(d, q[d])]);
  }

  lemma PairListing(c: string, d: string, cs: set<string>)
    requires c != d && cs == {c, d}
    ensures Listing([c, d], cs)
  {
  }

  lemma ClausesPair(q: Query, c: string, d: string)
    requires c in q && d in q
    ensures Clauses(q, [c, d]) == [Clause(c, q[c]), Clause(d, q[d])]
  {
    assert [c, d][1..] == [d] && [d][1..] == [];
    assert Clauses(q, [d]) == [Clause(d, q[d])] + Clauses(q, []);
    assert Clauses(q, [c, d]) == [Clause(c, q[c])] + Clauses(q, [d]);
  }

  predicate SortedClauses(a: string, b: string) {
    a != "" && b != "" && a[0] < b[0] && |a| < |b|
  }

  /** A value that goes on after its quote with a second clause. */
  function Marked(v: string, d: string, w: string): string {
    v + MARK + d + "='" + w
  }

  /** Concatenation regroups, for any pieces in the places of `=`, the quote and the separator. */
  lemma Regrouped(c: string, eq: string, quote: string, v: string, sep: string, d: string, w: string)
    ensures c + eq + (quote + (v + (quote + sep) + d + (eq + quote) + w) + quote)
         == c + eq + (quote + v + quote) + sep + (d + eq + (quote + w + quote))
  {
    var end := d + eq + (quote + w + quote);
    assert (d + (eq + quote) + w) + quote == end;
    assert v + (quote + sep) + d + (eq + quote) + w == v + (quote + sep) + (d + (eq + quote) + w);
    var inner := d + (eq + quote) + w;
    assert quote + (v + (quote + sep) + inner) + quote == (quote + v + quote) + sep + (inner + quote);
    assert c + eq + ((quote + v + quote) + sep + end) == c + eq + (quote + v + quote) + sep + end;
  }

  lemma MarkedClause(c: string, v: string, d: string, w: string)
    ensures Clause(c, Val.Text(Marked(v, d, w))) == Clause(c, Val.Text(v)) + SEPARATOR + Clause(d, Val.Text(w))
  {
    assert MARK == "'" + SEPARATOR && "='" == "=" + "'";
    Regrouped(c, "=", "'", v, SEPARATOR, d, w);
  }

  /**
   A value that holds the mark may make one column read like two: it does whenever what follows is
   the clause of another column that is sorted behind it.
   */
  lemma MarkedValueCollides(c: string, v: string, d: string, w: string)
    requires c != d && SortedClauses(Clause(c, Val.Text(v)), Clause(d, Val.Text(w)))
    ensures var one, two := map[c := Val.Text(Marked(v, d, w))], map[c := Val.Text(v), d := Val.Text(w)];
            one != two && TextOf(one) == TextOf(two)
  {
    var one: Query, two: Query := map[c := Val.Text(Marked(v, d, w))], map[c := Val.Text(v), d := Val.Text(w)];
    assert one.Keys == {c} && two.Keys == {c, d} && d in two && d !in one;
    TextOfOne(one, c);
    TextOfTwo(two, c, d);
    MarkedClause(c, v, d, w);
  }

  lemma SortedPair(a: string, b: string)
    requires SortedClauses(a, b)
    ensures OrderByLength(Sort([a, b])) == [a, b]
  {
  }
}
