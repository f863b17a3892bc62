/**
 The cache of texts against the nodes of the system: when a node's entries are not stale, a
 cached read through the texts gives what the direct lookup gives.
 */
module CachedReads {
  import opened CacheKeys
  import opened CacheMem
  import opened CacheNode
  import opened Coherence
  import opened KeyImages
  import opened KeyTexts
  import opened Rows
  import opened Text
  import opened Wrappers

  /** The way the code writes: `tokens` names the hash that holds the login tokens. */
  ghost predicate IsCode(f: Writing, c: Codec, tokens: string) {
    && '=' !in tokens
    && (forall k: Key :: f.name(k) == KeyText(tokens, k) && f.plain(k) == PlainKey(k))
    && f.text(NullBlob) == NULL
    && forall row: Row :: f.text(RowBlob(row)) == c.encode(row)
  }

  /** Under it different plain keys have different texts. */
  lemma CodeIsDistinct(f: Writing, c: Codec, tokens: string)
    requires IsCode(f, c, tokens)
    ensures Distinct(f)
  {
    forall k: Key, l: Key | f.plain(k) && f.plain(l) && f.name(k) == f.name(l) ensures k == l {
      KeyTextInjective(tokens, k, l);
    }
  }

  /** The direct lookups of a table are those of the committed rows. */
  ghost predicate Reads(direct: string -> Result<Option<Row>, Failure>, db: Database, table: string) {
    forall q: Query :: PlainQuery(q) ==> direct(TextOf(q)) == Success(RowIn(Lookup(db, RowKey(table, q))))
  }

  function RowIn(b: Blob): Option<Row> {
    if b.RowBlob? then Some(b.row) else None
  }

  /** No key of the table looks like the key of a token. */
  predicate Apart(tokens: string, table: string) {
    ':' !in table && !(table + "::" <= tokens + "::")
  }

  ghost predicate Current(w: World, cache: map<Key, Blob>) {
    forall k | k in cache :: cache[k] == Truth(w, k)
  }

  /** A text that is a key of the table starts with the table's name, a colon at its end. */
  lemma TableFirst(table: string, y: string, tokens: string, x: string)
    requires ':' !in table && MemKey(tokens, x) == MemKey(table, y)
    ensures table + "::" <= tokens + "::"
  {
    var s, u := MemKey(tokens, x), MemKey(table, y);
    assert s[|tokens|] == ':';
    assert forall i | 0 <= i < |table| :: u[i] == table[i] && table[i] in table;
    assert |table| <= |tokens|;
    assert (tokens + "::")[..|table| + 2] == s[..|table| + 2];
    assert u[..|table| + 2] == table + "::";
  }

  lemma SameRowText(t: string, p: Query, table: string, x: string)
    requires ':' !in t && ':' !in table && MemKey(t, TextOf(p)) == MemKey(table, x)
    ensures t == table && TextOf(p) == x
  {
    MemKeyForm(t, TextOf(p));
    MemKeyForm(table, x);
    SplitUnique(t, ":" + TextOf(p), table, ":" + x, ':');
    SameLengthSplit(":", TextOf(p), ":", x);
  }

  /** A plain key whose text is a lookup's in the table is that lookup. */
  lemma KeyOfText(tokens: string, k: Key, table: string, x: string)
    requires PlainKey(k) && Apart(tokens, table) && KeyText(tokens, k) == MemKey(table, x)
    ensures k.RowKey? && k.table == table && TextOf(k.query) == x && PlainQuery(k.query)
  {
    if k.TokenKey? {
      TableFirst(table, x, tokens, IntText(k.id));
    } else {
      SameRowText(k.table, k.query, table, x);
    }
  }

  lemma ReadsTruth(c: Codec, f: Writing, tokens: string, w: World, table: string, q: Query,
                   direct: string -> Result<Option<Row>, Failure>)
    requires IsCode(f, c, tokens) && Reads(direct, w.db, table) && PlainQuery(q)
    ensures direct(TextOf(q)).Success?
    ensures f.text(Truth(w, RowKey(table, q))) == Marshalled(c, direct(TextOf(q)).value)
  {
    LookupHasNoToken(w.db, RowKey(table, q));
  }

  lemma LookupHasNoToken(db: Database, k: Key)
    ensures !Lookup(db, k).TokenBlob?
  {
  }

  /** The image of a node whose entries are current agrees with the direct lookups. */
  lemma CurrentImageAgrees(c: Codec, f: Writing, tokens: string, store: map<string, string>, w: World,
                           cache: map<Key, Blob>, table: string, direct: string -> Result<Option<Row>, Failure>)
    requires IsCode(f, c, tokens) && Images(f, store, cache) && PlainKeys(f, cache) && Current(w, cache)
    requires Reads(direct, w.db, table) && Apart(tokens, table)
    ensures Agrees(store, c, table, direct)
  {
    forall x: string | MemKey(table, x) in store
      ensures direct(x).Success? && store[MemKey(table, x)] == Marshalled(c, direct(x).value)
    {
      var k :| k in cache && f.name(k) == MemKey(table, x);
      assert f.plain(k);
      KeyOfText(tokens, k, table, x);
      ReadsTruth(c, f, tokens, w, table, k.query, direct);
    }
  }

  /**
   A cached read at a node whose entries are current: it answers with the row the direct lookup
   finds, decoded into the bean, or not-found exactly when that finds nothing. Afterwards the store
   is the image of the node after an undisturbed read-through, whose entries are current too.
   */
  method CachedRead(mem: CacheMem, ghost f: Writing, ghost tokens: string, ghost w: World, ghost cache: map<Key, Blob>,
                    ghost q: Query, c: Codec, table: string, queries: seq<string>, bean: Row,
                    direct: string -> Result<Option<Row>, Failure>) returns (r: Result<Row, Failure>)
    requires Lawful(c) && IsCode(f, c, tokens) && Apart(tokens, table)
    requires Images(f, mem.store, cache) && PlainKeys(f, cache) && Current(w, cache)
    requires Reads(direct, w.db, table)
    requires queries != [] && queries[0] == TextOf(q) && PlainQuery(q)
    modifies mem`store
    ensures r == match Lookup(w.db, RowKey(table, q))
                 case RowBlob(row) => Success(Overlay(bean, c.shown(row)))
                 case _ => Failure(NotFound(KeyText(tokens, RowKey(table, q))))
    ensures var k := RowKey(table, q);
            Images(f, mem.store, cache[k := Truth(w, k)]) && Current(w, cache[k := Truth(w, k)])
  {
    FillOnImage(c, f, tokens, mem.store, w, cache, table, q, direct);
    StaysCurrent(w, cache, RowKey(table, q));
    CurrentImageAgrees(c, f, tokens, mem.store, w, cache, table, direct);
    r := mem.CacheGet(c, table, queries, bean, true, true, direct);
  }

  /** What a read-through leaves in the store is the image of what it leaves at the node. */
  lemma FillOnImage(c: Codec, f: Writing, tokens: string, store: map<string, string>, w: World, cache: map<Key, Blob>,
                    table: string, q: Query, direct: string -> Result<Option<Row>, Failure>)
    requires IsCode(f, c, tokens) && Apart(tokens, table) && Reads(direct, w.db, table) && PlainQuery(q)
    requires Images(f, store, cache) && PlainKeys(f, cache) && Current(w, cache)
    ensures var k, key, found := RowKey(table, q), MemKey(table, TextOf(q)), direct(TextOf(q));
            && found == Success(RowIn(Lookup(w.db, k)))
            && Images(f, if key in store then store else store[key := Marshalled(c, found.value)], cache[k := Truth(w, k)])
  {
    var k := RowKey(table, q);
    ReadsTruth(c, f, tokens, w, table, q, direct);
    RowName(c, f, tokens, table, q);
    FilledImage(f, store, cache, k, Truth(w, k));
  }

  lemma StaysCurrent(w: World, cache: map<Key, Blob>, k: Key)
    requires Current(w, cache)
    ensures Current(w, cache[k := Truth(w, k)])
  {
  }

  lemma RowName(c: Codec, f: Writing, tokens: string, table: string, q: Query)
    requires IsCode(f, c, tokens) && ':' !in table && PlainQuery(q)
    ensures f.plain(RowKey(table, q)) && f.name(RowKey(table, q)) == MemKey(table, TextOf(q))
  {
    assert PlainKey(RowKey(table, q));
  }

  /** In every settled state the entries of every node are current. */
  lemma SettledIsCurrent(cat: Catalog, s: State, i: nat)
    requires Reachable(REAL, cat, s) && Quiet(s) && i < |s.nodes|
    ensures Current(s.world, s.nodes[i].cache)
  {
    QuietIsCoherent(cat, s);
    forall k | k in s.nodes[i].cache ensures s.nodes[i].cache[k] == Truth(s.world, k) {
      assert !Stale(s.world, s.nodes[i], k);
    }
  }
}
