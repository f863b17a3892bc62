/**
 The local cache as one caller uses it: get-or-load under a key's lock, the deletions of a
 handled message, and the single-row read built on top. What concurrent callers do to each
 other is the subject of CacheNode and Coherence.
 */
module CacheMem {
  import opened CacheKeys
  import opened Rows
  import opened Wrappers

  datatype Failure = NotFound(key: string) | EmptyQuery | CacheBroken | LoadFailed | StoreFailed | BadData

  /** The marker stored for a lookup that found nothing. */
  const NULL := "null"

  /**
   Encoding of rows, known only through its laws. `shown` is the part of a row its encoding
   mentions; it need not be all of it.
   */
  datatype Codec = Codec(encode: Row -> string, decode: string -> Option<Row>, shown: Row -> Row)

  ghost predicate Lawful(c: Codec) {
    forall r: Row ::
      && c.decode(c.encode(r)) == Some(c.shown(r))
      && c.encode(r) != "" && c.encode(r)[0] == '{'
      && forall k :: k in c.shown(r) ==> k in r && c.shown(r)[k] == r[k]
  }

  function Marshalled(c: Codec, found: Option<Row>): string {
    match found
    case None => NULL
    case Some(row) => c.encode(row)
  }

  /** The marker is told apart from every encoded row, and encoded rows from one another up to what they show. */
  lemma MarshalledUnambiguous(c: Codec, a: Option<Row>, b: Option<Row>)
    requires Lawful(c) && Marshalled(c, a) == Marshalled(c, b)
    ensures a.None? <==> b.None?
    ensures a.Some? ==> c.shown(a.value) == c.shown(b.value)
  {
  }

  /** Decoding into a bean overwrites what the encoding shows and leaves the rest. */
  function Overlay(bean: Row, shown: Row): Row {
    bean + shown
  }

  predicate SameRow(a: Row, b: Row) {
    forall c | c in a.Keys + b.Keys :: (Has(a, c) <==> Has(b, c)) && (Has(a, c) ==> a[c] == b[c])
  }

  /** A cached read gives exactly the row when bean and row agree on what the encoding leaves out. */
  lemma OverlayIsRowIff(c: Codec, bean: Row, row: Row)
    requires Lawful(c)
    ensures SameRow(Overlay(bean, c.shown(row)), row)
            <==> forall k | k !in c.shown(row) :: (Has(bean, k) <==> Has(row, k)) && (Has(row, k) ==> bean[k] == row[k])
  {
    var read, shown := Overlay(bean, c.shown(row)), c.shown(row);
    if SameRow(read, row) {
      forall k | k !in shown ensures (Has(bean, k) <==> Has(row, k)) && (Has(row, k) ==> bean[k] == row[k]) {
        assert k in read.Keys + row.Keys ==> (Has(read, k) <==> Has(row, k)) && (Has(read, k) ==> read[k] == row[k]);
      }
    }
  }

  /** So a row read into an empty bean is whole exactly if its encoding shows all its non-zero columns. */
  lemma ReadIsWholeIff(c: Codec, row: Row)
    requires Lawful(c)
    ensures SameRow(Overlay(map[], c.shown(row)), row) <==> forall k | Has(row, k) :: k in c.shown(row)
  {
    OverlayIsRowIff(c, map[], row);
  }

  /** Whether the deletion of the key at an index works, without the lock and under it. */
  type Working = (nat, bool) -> bool

  /** The keys that at least one of their deletions removes. */
  function Deleted(keys: seq<string>, works: Working): set<string> {
    set i | 0 <= i < |keys| && (works(i, false) || works(i, true)) :: keys[i]
  }

  lemma DeletedStep(keys: seq<string>, works: Working, i: nat)
    requires i < |keys|
    ensures Deleted(keys[..i + 1], works)
         == Deleted(keys[..i], works) + if works(i, false) || works(i, true) then {keys[i]} else {}
  {
    var a, b := keys[..i + 1], keys[..i];
    assert forall j | 0 <= j < i :: a[j] == b[j];
    assert a[i] == keys[i];
    forall x | x in Deleted(b, works) ensures x in Deleted(a, works) {
      var j :| 0 <= j < |b| && (works(j, false) || works(j, true)) && b[j] == x;
      assert a[j] == x;
    }
    forall x | x in Deleted(a, works)
      ensures x in Deleted(b, works) || (x == keys[i] && (works(i, false) || works(i, true)))
    {
      var j :| 0 <= j < |a| && (works(j, false) || works(j, true)) && a[j] == x;
      if j < i {
        assert b[j] == x;
      }
    }
  }

  predicate AllDeleted(keys: seq<string>, works: Working) {
    forall i | 0 <= i < |keys| :: works(i, false) || works(i, true)
  }

  lemma AllDeletedIsAll(keys: seq<string>, works: Working)
    requires AllDeleted(keys, works)
    ensures Deleted(keys, works) == (set x | x in keys)
  {
    forall x | x in keys ensures x in Deleted(keys, works) {
      var i :| 0 <= i < |keys| && keys[i] == x;
      assert works(i, false) || works(i, true);
    }
  }

  /** Every entry under `table` is what the direct lookup of its text would be marshalled to. */
  ghost predicate Agrees(store: map<string, string>, c: Codec, table: string,
                         direct: string -> Result<Option<Row>, Failure>) {
    forall q: string :: MemKey(table, q) in store ==>
      direct(q).Success? && store[MemKey(table, q)] == Marshalled(c, direct(q).value)
  }

  class CacheMem {
    var store: map<string, string>
    /** Keys of each delayed deletion that has been armed. */
    var armed: seq<seq<string>>

    constructor ()
      ensures store == map[] && armed == []
    {
      store, armed := map[], [];
    }

    /**
     The loader runs only on a miss; its value is stored, its failure is not. `getOk` and
     `setOk` say whether the cache itself works.
     */
    method GetOrStore(key: string, getOk: bool, setOk: bool, load: Result<string, Failure>)
      returns (r: Result<string, Failure>, loaded: bool)
      modifies this`store
      ensures loaded <==> getOk && key !in old(store)
      ensures !getOk ==> r == Result.Failure(CacheBroken)
      ensures getOk && key in old(store) ==> r == Success(old(store)[key])
      ensures loaded ==> r == if load.Success? && !setOk then Result.Failure(StoreFailed) else load
      ensures store == if loaded && r.Success? then old(store)[key := r.value] else old(store)
    {
      if !getOk {
        return Result.Failure(CacheBroken), false;
      }
      if key in store {
        return Success(store[key]), false;
      }
      if load.Failure? {
        return load, true;
      }
      if !setOk {
        return Result.Failure(StoreFailed), true;
      }
      store := store[key := load.value];
      return load, true;
    }

    /** The error of a cache that does not delete is dropped. */
    method Delete(key: string, works: bool)
      modifies this`store
      ensures store == if works then old(store) - {key} else old(store)
    {
      if works {
        store := store - {key};
      }
    }

    /** Each key twice, first without the lock and then under it; a failure is passed over. */
    method DeleteAll(keys: seq<string>, works: Working)
      modifies this`store
      ensures store == old(store) - Deleted(keys, works)
    {
      assert Deleted(keys[..0], works) == {};
      for i := 0 to |keys|
        invariant store == old(store) - Deleted(keys[..i], works)
      {
        Delete(keys[i], works(i, false));
        Delete(keys[i], works(i, true));
        DeletedStep(keys, works, i);
      }
      assert keys[..|keys|] == keys;
    }

    /** A message that cannot be decoded is dropped; any other is carried out and armed once more. */
    method HandleDelete(payload: Option<seq<string>>, works: Working)
      modifies this
      ensures payload.None? ==> store == old(store) && armed == old(armed)
      ensures payload.Some? ==> store == old(store) - Deleted(payload.value, works)
      ensures payload.Some? ==> armed == old(armed) + [payload.value]
    {
      if payload.None? {
        return;
      }
      DeleteAll(payload.value, works);
      armed := armed + [payload.value];
    }

    method Reset(works: bool)
      modifies this`store
      ensures store == if works then map[] else old(store)
    {
      if works {
        store := map[];
      }
    }

    /**
     A cached read. With entries that agree with the direct lookups, it finds a row exactly
     when the direct lookup does, and gives that row decoded into the bean.
     */
    method CacheGet(c: Codec, table: string, queries: seq<string>, bean: Row, getOk: bool, setOk: bool,
                    direct: string -> Result<Option<Row>, Failure>) returns (r: Result<Row, Failure>)
      requires Lawful(c)
      modifies this`store
      ensures queries == [] ==> r == Result.Failure(EmptyQuery) && store == old(store)
      ensures Agrees(old(store), c, table, direct) ==> Agrees(store, c, table, direct)
      ensures queries != [] && getOk && setOk && Agrees(old(store), c, table, direct) ==>
                r == match direct(queries[0])
                     case Failure(e) => Result.Failure(e)
                     case Success(None) => Result.Failure(NotFound(MemKey(table, queries[0])))
                     case Success(Some(row)) => Success(Overlay(bean, c.shown(row)))
      ensures queries != [] && !getOk ==> r == Result.Failure(CacheBroken) && store == old(store)
      ensures queries != [] ==>
                var key, found := MemKey(table, queries[0]), direct(queries[0]);
                store == if getOk && setOk && key !in old(store) && found.Success?
                         then old(store)[key := Marshalled(c, found.value)] else old(store)
    {
      if queries == [] {
        return Result.Failure(EmptyQuery);
      }
      var q := queries[0];
      var key := MemKey(table, q);
      var found := direct(q);
      var load: Result<string, Failure> :=
        if found.Failure? then Result.Failure(found.error) else Success(Marshalled(c, found.value));
      var bytes, loaded := GetOrStore(key, getOk, setOk, load);
      forall p: string | MemKey(table, p) == key ensures p == q {
        assert MemKey(table, p)[|table| + 2..] == p && MemKey(table, q)[|table| + 2..] == q;
      }
      if bytes.Failure? {
        return Result.Failure(bytes.error);
      }
      if found.Success? && found.value.Some? {
        assert c.decode(c.encode(found.value.value)) == Some(c.shown(found.value.value));
        assert c.encode(found.value.value)[0] == '{' && NULL[0] == 'n';
      }
      if bytes.value == NULL {
        return Result.Failure(NotFound(key));
      }
      var decoded := c.decode(bytes.value);
      if decoded.None? {
        return Result.Failure(BadData);
      }
      return Success(Overlay(bean, decoded.value));
    }
  }
}
