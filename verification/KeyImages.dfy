/**
 Caches as texts. A way of writing keys and values down, under which different plain keys have
 different texts, carries what is done to a node's cache over to the store of texts.
 */
module KeyImages {
  import opened Rows
  import opened Runs

  /** The text of a key, whether that key is plain, and the text of a value. */
  datatype Writing = Writing(name: Key -> string, plain: Key -> bool, text: Blob -> string)

  ghost predicate Distinct(f: Writing) {
    forall k: Key, l: Key :: f.plain(k) && f.plain(l) && f.name(k) == f.name(l) ==> k == l
  }

  ghost predicate PlainKeys(f: Writing, cache: map<Key, Blob>) {
    Distinct(f) && forall k | k in cache :: f.plain(k)
  }

  /** The store holds exactly the entries of the cache, by the texts of their keys. */
  ghost predicate Images(f: Writing, store: map<string, string>, cache: map<Key, Blob>) {
    && (forall x | x in store :: exists k | k in cache :: f.name(k) == x)
    && (forall k | k in cache :: f.name(k) in store && store[f.name(k)] == f.text(cache[k]))
  }

  /** Storing a value. */
  lemma StoreOnImage(f: Writing, store: map<string, string>, cache: map<Key, Blob>, k: Key, b: Blob)
    requires Images(f, store, cache) && PlainKeys(f, cache) && f.plain(k)
    ensures Images(f, store[f.name(k) := f.text(b)], cache[k := b]) && PlainKeys(f, cache[k := b])
  {
    var store', cache' := store[f.name(k) := f.text(b)], cache[k := b];
    forall x | x in store' ensures exists j | j in cache' :: f.name(j) == x {
      if x == f.name(k) {
        assert k in cache';
      } else {
        var j :| j in cache && f.name(j) == x;
        assert j in cache';
      }
    }
  }

  /** Deleting a key. */
  lemma DeleteOnImage(f: Writing, store: map<string, string>, cache: map<Key, Blob>, k: Key)
    requires Images(f, store, cache) && PlainKeys(f, cache) && f.plain(k)
    ensures Images(f, store - {f.name(k)}, cache - {k}) && PlainKeys(f, cache - {k})
  {
    var store', cache' := store - {f.name(k)}, cache - {k};
    forall x | x in store' ensures exists j | j in cache' :: f.name(j) == x {
      var j :| j in cache && f.name(j) == x;
      assert j in cache';
    }
  }

  function Names(f: Writing, keys: seq<Key>): seq<string> {
    if keys == [] then [] else [f.name(keys[0])] + Names(f, keys[1..])
  }

  function Without(store: map<string, string>, xs: seq<string>): map<string, string> {
    store - (set x | x in xs)
  }

  lemma WithoutFirst(store: map<string, string>, x: string, xs: seq<string>)
    ensures Without(store - {x}, xs) == Without(store, [x] + xs)
  {
  }

  lemma DroppedFirst(cache: map<Key, Blob>, k: Key, keys: seq<Key>)
    ensures Dropped(cache - {k}, keys) == Dropped(cache, [k] + keys)
  {
  }

  /** Working through a message's keys, as the system does it and as texts. */
  lemma {:induction false} MessageOnImage(f: Writing, store: map<string, string>, cache: map<Key, Blob>, keys: seq<Key>)
    requires Images(f, store, cache) && PlainKeys(f, cache) && forall k | k in keys :: f.plain(k)
    ensures Images(f, Without(store, Names(f, keys)), Dropped(cache, keys))
  {
    if keys == [] {
      assert Without(store, []) == store && Dropped(cache, keys) == cache;
    } else {
      var k, rest := keys[0], keys[1..];
      assert k in keys && forall j | j in rest :: j in keys;
      DeleteOnImage(f, store, cache, k);
      MessageOnImage(f, store - {f.name(k)}, cache - {k}, rest);
      WithoutFirst(store, f.name(k), Names(f, rest));
      DroppedFirst(cache, k, rest);
      assert keys == [k] + rest;
    }
  }

  /** Every cache with plain keys has an image. */
  lemma {:induction false} ImageExists(f: Writing, cache: map<Key, Blob>) returns (store: map<string, string>)
    requires PlainKeys(f, cache)
    ensures Images(f, store, cache)
    decreases |cache|
  {
    if cache == map[] {
      store := map[];
    } else {
      var k :| k in cache;
      var rest := cache - {k};
      assert rest.Keys == cache.Keys - {k};
      var s := ImageExists(f, rest);
      StoreOnImage(f, s, rest, k, cache[k]);
      store := s[f.name(k) := f.text(cache[k])];
      assert rest[k := cache[k]] == cache;
    }
  }

  /** What the store holds under a plain key is cached under it. */
  lemma StoredIsCached(f: Writing, store: map<string, string>, cache: map<Key, Blob>, k: Key)
    requires Images(f, store, cache) && PlainKeys(f, cache) && f.plain(k) && f.name(k) in store
    ensures k in cache
  {
    var j :| j in cache && f.name(j) == f.name(k);
    assert f.plain(j);
  }

  /** The image after an entry's value is put in, unless it is there already. */
  lemma FilledImage(f: Writing, store: map<string, string>, cache: map<Key, Blob>, k: Key, b: Blob)
    requires Images(f, store, cache) && PlainKeys(f, cache) && f.plain(k) && (k in cache ==> cache[k] == b)
    ensures Images(f, if f.name(k) in store then store else store[f.name(k) := f.text(b)], cache[k := b])
  {
    if k in cache {
      assert cache[k := b] == cache;
    } else {
      if f.name(k) in store { StoredIsCached(f, store, cache, k); }
      StoreOnImage(f, store, cache, k, b);
    }
  }
}
