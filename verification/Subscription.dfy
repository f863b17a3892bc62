/**
 The loop that turns published messages into cache deletions. It handles one message at a
 time, in order, which is what the queue and the single handler of CacheNode stand for.
 */
module Subscription {
  import opened CacheMem
  import opened Wrappers

  /** `keys` is the decoded payload, if it decodes; `works` and `resets` say what the cache manages of it. */
  datatype Delivery = CloseSignal | ReceiveFailed | Garbled
                    | Message(name: string, keys: Option<seq<string>>, works: Working, resets: bool)

  function DelCacheName(app: string): string {
    app + "_DelMemCache"
  }

  function DelAllName(app: string): string {
    app + "_DelMemAll"
  }

  predicate Stops(d: Delivery) {
    d.CloseSignal? || d.ReceiveFailed?
  }

  /** The deliveries up to the first that ends the loop. */
  function Handled(ds: seq<Delivery>): seq<Delivery> {
    if ds == [] || Stops(ds[0]) then [] else [ds[0]] + Handled(ds[1..])
  }

  predicate Deletes(app: string, d: Delivery) {
    d.Message? && d.name == DelCacheName(app) && d.keys.Some?
  }

  predicate Wipes(app: string, d: Delivery) {
    d.Message? && d.name == DelAllName(app) && d.resets
  }

  predicate Removes(app: string, d: Delivery, key: string) {
    Wipes(app, d) || (Deletes(app, d) && key in Deleted(d.keys.value, d.works))
  }

  /** The key lists to be deleted once more, oldest first. */
  function Deletions(app: string, ds: seq<Delivery>): seq<seq<string>> {
    if ds == [] then []
    else (if Deletes(app, ds[0]) then [ds[0].keys.value] else []) + Deletions(app, ds[1..])
  }

  ghost predicate Spares(app: string, ds: seq<Delivery>, key: string) {
    forall d | d in ds :: !Removes(app, d, key)
  }

  lemma SparesAppend(app: string, ds: seq<Delivery>, d: Delivery, key: string)
    ensures Spares(app, ds + [d], key) <==> Spares(app, ds, key) && !Removes(app, d, key)
    ensures Spares(app, [d], key) <==> !Removes(app, d, key)
  {
  }

  /** What is left in the cache: the entries that no handled message removes. */
  ghost predicate LeftBy(app: string, before: map<string, string>, ds: seq<Delivery>, after: map<string, string>) {
    && (forall k :: k in after <==> k in before && Spares(app, ds, k))
    && (forall k | k in after :: after[k] == before[k])
  }

  class Subscription {
    const app: string
    const mem: CacheMem
    var isClose: bool
    /** How often the close channel was closed; a second time would panic. */
    var closes: nat

    constructor (app: string, mem: CacheMem)
      ensures this.app == app && this.mem == mem && !isClose && closes == 0
    {
      this.app, this.mem := app, mem;
      isClose, closes := false, 0;
    }

    method CloseRedisSub()
      modifies this
      ensures isClose && closes == old(closes) + if old(isClose) then 0 else 1
    {
      if isClose {
        return;
      }
      isClose := true;
      closes := closes + 1;
    }

    /** One message that the loop can read. */
    method Dispatch(d: Delivery)
      requires !Stops(d)
      modifies mem
      ensures LeftBy(app, old(mem.store), [d], mem.store)
      ensures mem.armed == old(mem.armed) + Deletions(app, [d])
    {
      NamesDiffer(app, app);
      forall k { SparesAppend(app, [], d, k); }
      assert Deletions(app, [d]) == if Deletes(app, d) then [d.keys.value] else [];
      if d.Garbled? {
        return;
      }
      if d.name == DelCacheName(app) {
        mem.HandleDelete(d.keys, d.works);
      } else if d.name == DelAllName(app) {
        mem.Reset(d.resets);
      }
    }

    /**
     Handles deliveries in turn until a close signal or a failed receive. Each deletion handled
     is armed once more, in order; nothing after the end is looked at.
     */
    method SubAction(ds: seq<Delivery>)
      modifies mem
      ensures LeftBy(app, old(mem.store), Handled(ds), mem.store)
      ensures mem.armed == old(mem.armed) + Deletions(app, Handled(ds))
      ensures forall k :: k in mem.store <==>
                k in old(mem.store) && forall j | 0 <= j < |ds| && Unbroken(ds, j) :: !Hits(app, ds[j], k)
    {
      forall k { SparesHandledIff(app, ds, k); }
      var i := 0;
      while i < |ds| && !Stops(ds[i])
        invariant 0 <= i <= |ds| && forall j | 0 <= j < i :: !Stops(ds[j])
        invariant LeftBy(app, old(mem.store), ds[..i], mem.store)
        invariant mem.armed == old(mem.armed) + Deletions(app, ds[..i])
      {
        ghost var store := mem.store;
        Dispatch(ds[i]);
        LeftInTurn(app, old(mem.store), ds[..i], store, ds[i], mem.store);
        DeletionsAppend(app, ds[..i], ds[i]);
        assert ds[..i + 1] == ds[..i] + [ds[i]];
        i := i + 1;
      }
      HandledIsPrefix(ds, i);
    }
  }

  lemma {:induction false} HandledIsPrefix(ds: seq<Delivery>, i: nat)
    requires i <= |ds| && forall j | 0 <= j < i :: !Stops(ds[j])
    requires i == |ds| || Stops(ds[i])
    ensures Handled(ds) == ds[..i]
  {
    if i > 0 {
      HandledIsPrefix(ds[1..], i - 1);
      assert ds[..i] == [ds[0]] + ds[1..][..i - 1];
    }
  }

  lemma LeftInTurn(app: string, a: map<string, string>, ds: seq<Delivery>, b: map<string, string>,
                   d: Delivery, c: map<string, string>)
    requires LeftBy(app, a, ds, b) && LeftBy(app, b, [d], c)
    ensures LeftBy(app, a, ds + [d], c)
  {
  }

  lemma {:induction false} DeletionsAppend(app: string, ds: seq<Delivery>, d: Delivery)
    ensures Deletions(app, ds + [d]) == Deletions(app, ds) + Deletions(app, [d])
  {
    if ds == [] {
      assert ds + [d] == [d];
    } else {
      assert (ds + [d])[1..] == ds[1..] + [d];
      DeletionsAppend(app, ds[1..], d);
    }
  }

  /** Two applications never take each other's messages, nor one kind for the other. */
  lemma NamesDiffer(a: string, b: string)
    ensures DelCacheName(a) == DelCacheName(b) <==> a == b
    ensures DelAllName(a) == DelAllName(b) <==> a == b
    ensures DelCacheName(a) != DelAllName(b)
  {
    var x, y, u, v := DelCacheName(a), DelCacheName(b), DelAllName(a), DelAllName(b);
    assert x[|x| - 1] == 'e' && v[|v| - 1] == 'l';
    if x == y {
      assert x[..|a|] == a && y[..|b|] == b;
    }
    if u == v {
      assert u[..|a|] == a && v[..|b|] == b;
    }
  }

  /**
   A failed receive ends the loop as finally as a close: whatever is delivered afterwards, a
   deletion included, is never handled.
   */
  lemma {:induction false} NothingAfterTheEnd(before: seq<Delivery>, end: Delivery, after: seq<Delivery>)
    requires Stops(end)
    ensures Handled(before + [end] + after) == Handled(before)
  {
    var ds := before + [end] + after;
    if before == [] {
      assert ds[0] == end;
    } else {
      assert ds[0] == before[0];
      assert ds[1..] == before[1..] + [end] + after;
      NothingAfterTheEnd(before[1..], end, after);
    }
  }

  /** Every delivery is handled exactly if none of them ends the loop. */
  lemma AllHandledIff(ds: seq<Delivery>)
    ensures Handled(ds) == ds <==> forall d | d in ds :: !Stops(d)
  {
    if i :| 0 <= i < |ds| && Stops(ds[i]) {
      NothingAfterTheEnd(ds[..i], ds[i], ds[i + 1..]);
      assert ds == ds[..i] + [ds[i]] + ds[i + 1..];
      HandledLength(ds[..i]);
    } else {
      HandledIsPrefix(ds, |ds|);
      assert ds[..|ds|] == ds;
    }
  }

  lemma {:induction false} HandledLength(ds: seq<Delivery>)
    ensures |Handled(ds)| <= |ds|
  {
    if ds != [] { HandledLength(ds[1..]); }
  }

  // ---- Delivery by delivery ----

  /** Neither a close signal nor a failed receive stands at this place or before it. */
  predicate Unbroken(ds: seq<Delivery>, j: nat)
    requires j < |ds|
  {
    forall l | 0 <= l <= j :: !ds[l].CloseSignal? && !ds[l].ReceiveFailed?
  }

  /** The delivery is a message that removes the key: a reset that works, or a deletion that works for the key. */
  predicate Hits(app: string, d: Delivery, key: string) {
    d.Message?
    && ((d.name == app + "_DelMemAll" && d.resets)
        || (d.name == app + "_DelMemCache" && d.keys.Some?
            && exists i | 0 <= i < |d.keys.value| ::
                 d.keys.value[i] == key && (d.works(i, false) || d.works(i, true))))
  }

  lemma RemovesIffHits(app: string, d: Delivery, key: string)
    ensures Removes(app, d, key) <==> Hits(app, d, key)
  {
    NamesDiffer(app, app);
  }

  /**
   A delivery is handled exactly if neither a close signal nor a failed receive stands at its place
   or before it; what cannot be read, or is meant for others, ends nothing.
   */
  lemma {:induction false} HandledIff(ds: seq<Delivery>, j: nat)
    requires j < |ds|
    ensures j < |Handled(ds)| <==> Unbroken(ds, j)
    ensures j < |Handled(ds)| ==> Handled(ds)[j] == ds[j]
  {
    if Stops(ds[0]) {
      assert Handled(ds) == [] && !Unbroken(ds, j);
    } else if j > 0 {
      HandledIff(ds[1..], j - 1);
      assert forall l | 1 <= l <= j :: ds[l] == ds[1..][l - 1];
      assert Unbroken(ds, j) <==> Unbroken(ds[1..], j - 1) by {
        if Unbroken(ds[1..], j - 1) {
          forall l | 0 <= l <= j ensures !ds[l].CloseSignal? && !ds[l].ReceiveFailed? {
            if l > 0 { assert !ds[1..][l - 1].CloseSignal? && !ds[1..][l - 1].ReceiveFailed?; }
          }
        }
      }
    }
  }

  lemma SparesHandledIff(app: string, ds: seq<Delivery>, key: string)
    ensures Spares(app, Handled(ds), key) <==> forall j | 0 <= j < |ds| && Unbroken(ds, j) :: !Hits(app, ds[j], key)
  {
    var handled := Handled(ds);
    HandledLength(ds);
    forall j | 0 <= j < |ds| ensures (j < |handled| <==> Unbroken(ds, j)) && (j < |handled| ==> handled[j] == ds[j]) {
      HandledIff(ds, j);
    }
    forall d { RemovesIffHits(app, d, key); }
    if Spares(app, handled, key) {
      forall j | 0 <= j < |ds| && Unbroken(ds, j) ensures !Hits(app, ds[j], key) {
        assert handled[j] in handled;
      }
    }
  }

  /** So a deletion message with neither before it is carried out and armed once more, whatever surrounds it. */
  lemma DeletionIsCarriedOut(app: string, ds: seq<Delivery>, j: nat, keys: seq<string>, works: Working, resets: bool,
                             before: map<string, string>, after: map<string, string>)
    requires j < |ds| && Unbroken(ds, j) && ds[j] == Message(app + "_DelMemCache", Some(keys), works, resets)
    requires LeftBy(app, before, Handled(ds), after)
    ensures keys in Deletions(app, Handled(ds))
    ensures forall i | 0 <= i < |keys| && (works(i, false) || works(i, true)) :: keys[i] !in after
  {
    HandledIff(ds, j);
    ArmedIfHandled(app, Handled(ds), j);
    forall i | 0 <= i < |keys| && (works(i, false) || works(i, true)) ensures keys[i] !in after {
      SparesHandledIff(app, ds, keys[i]);
      assert Hits(app, ds[j], keys[i]);
    }
  }

  lemma {:induction false} ArmedIfHandled(app: string, ds: seq<Delivery>, j: nat)
    requires j < |ds| && Deletes(app, ds[j])
    ensures ds[j].keys.value in Deletions(app, ds)
  {
    if j > 0 { ArmedIfHandled(app, ds[1..], j - 1); }
  }

  /** Every list armed is that of some deletion message with neither before it. */
  lemma {:induction false} ArmedIsDelivered(app: string, ds: seq<Delivery>, keys: seq<string>)
    requires keys in Deletions(app, Handled(ds))
    ensures exists j | 0 <= j < |ds| ::
              Unbroken(ds, j) && ds[j].Message? && ds[j].name == app + "_DelMemCache" && ds[j].keys == Some(keys)
  {
    if Deletes(app, ds[0]) && ds[0].keys == Some(keys) {
      HandledIff(ds, 0);
    } else {
      ArmedIsDelivered(app, ds[1..], keys);
      var j :| 0 <= j < |ds[1..]| && Unbroken(ds[1..], j) && ds[1..][j].Message?
               && ds[1..][j].name == app + "_DelMemCache" && ds[1..][j].keys == Some(keys);
      HandledIff(ds[1..], j);
      HandledIff(ds, j + 1);
      assert ds[j + 1] == ds[1..][j];
    }
  }
}
