/**
 The loop over delivered messages against the queue of a node: when the cache deletes what it is
 told to, the loop leaves the image of what the node reaches by handling the same messages.
 */
module HandledMessages {
  import opened CacheMem
  import CacheNode
  import opened Coherence
  import opened KeyImages
  import opened Rows
  import opened Runs
  import opened Subscription
  import opened Wrappers

  /** What is left of a node's entries after these messages. */
  function DroppedBy(cache: map<Key, Blob>, ms: seq<CacheNode.Message>): map<Key, Blob>
    decreases ms
  {
    if ms == [] then cache
    else DroppedBy(match ms[0] case DelKeys(keys, _) => Dropped(cache, keys) case DelAll => map[], ms[1..])
  }

  /** The delivery is this message on the wire, and the cache carries it out. */
  predicate Delivers(app: string, f: Writing, m: CacheNode.Message, d: Delivery) {
    match m
    case DelKeys(keys, _) =>
      d.Message? && d.name == DelCacheName(app) && d.keys == Some(Names(f, keys)) && AllDeleted(Names(f, keys), d.works)
    case DelAll => Wipes(app, d)
  }

  predicate DeliversAll(app: string, f: Writing, ms: seq<CacheNode.Message>, ds: seq<Delivery>) {
    |ms| == |ds| && forall i | 0 <= i < |ms| :: Delivers(app, f, ms[i], ds[i])
  }

  predicate PlainMessage(f: Writing, m: CacheNode.Message) {
    m.DelKeys? ==> forall k | k in m.keys :: f.plain(k)
  }

  predicate PlainMessages(f: Writing, ms: seq<CacheNode.Message>) {
    forall m | m in ms :: PlainMessage(f, m)
  }

  /** One delivery. */
  lemma DeliveryOnImage(app: string, f: Writing, store: map<string, string>, cache: map<Key, Blob>,
                        m: CacheNode.Message, d: Delivery) returns (store': map<string, string>)
    requires Images(f, store, cache) && PlainKeys(f, cache)
    requires Delivers(app, f, m, d) && PlainMessage(f, m)
    ensures LeftBy(app, store, [d], store')
    ensures Images(f, store', DroppedBy(cache, [m])) && PlainKeys(f, DroppedBy(cache, [m]))
  {
    NamesDiffer(app, app);
    forall k { SparesAppend(app, [], d, k); }
    assert [m][1..] == [];
    if m.DelKeys? {
      store' := Without(store, Names(f, m.keys));
      MessageOnImage(f, store, cache, m.keys);
      AllDeletedIsAll(Names(f, m.keys), d.works);
    } else {
      store' := map[];
    }
  }

  lemma LeftByRest(app: string, a: map<string, string>, ds: seq<Delivery>, b: map<string, string>, c: map<string, string>)
    requires ds != [] && LeftBy(app, a, ds, c) && LeftBy(app, a, [ds[0]], b)
    ensures LeftBy(app, b, ds[1..], c)
  {
    forall k ensures Spares(app, ds, k) <==> Spares(app, [ds[0]], k) && Spares(app, ds[1..], k) {
      assert ds == [ds[0]] + ds[1..];
    }
  }

  lemma {:induction false} LeftByIsImage(app: string, f: Writing, store: map<string, string>, cache: map<Key, Blob>,
                                         ms: seq<CacheNode.Message>, ds: seq<Delivery>, store': map<string, string>)
    requires Images(f, store, cache) && PlainKeys(f, cache)
    requires DeliversAll(app, f, ms, ds) && PlainMessages(f, ms) && LeftBy(app, store, ds, store')
    ensures Images(f, store', DroppedBy(cache, ms))
    decreases ms
  {
    if ms == [] {
      assert store' == store;
    } else {
      assert Delivers(app, f, ms[0], ds[0]) && ms[0] in ms && forall m | m in ms[1..] :: m in ms;
      var mid := DeliveryOnImage(app, f, store, cache, ms[0], ds[0]);
      LeftByRest(app, store, ds, mid, store');
      assert [ms[0]][1..] == [] && DroppedBy(cache, ms) == DroppedBy(DroppedBy(cache, [ms[0]]), ms[1..]);
      LeftByIsImage(app, f, mid, DroppedBy(cache, [ms[0]]), ms[1..], ds[1..], store');
    }
  }

  lemma NoneStops(app: string, f: Writing, ms: seq<CacheNode.Message>, ds: seq<Delivery>)
    requires DeliversAll(app, f, ms, ds)
    ensures Handled(ds) == ds
  {
    forall d | d in ds ensures !Stops(d) {
      var i :| 0 <= i < |ds| && ds[i] == d;
      assert Delivers(app, f, ms[i], ds[i]);
    }
    AllHandledIff(ds);
  }

  // ---- The node ----

  /** A node with no fill under way, between messages. */
  predicate Between(n: CacheNode.Node) {
    n.handler.None? && n.inflight == map[]
  }

  lemma NodeHandlesKeys(cat: Catalog, s0: State, s: State, i: nat, keys: seq<Key>, tx: Option<nat>,
                        rest: seq<CacheNode.Message>) returns (s': State)
    requires Leads(CacheNode.REAL, cat, ANY, s0, s) && i < |s.nodes| && Between(s.nodes[i])
    requires s.nodes[i].queue == [CacheNode.DelKeys(keys, tx)] + rest
    ensures Leads(CacheNode.REAL, cat, ANY, s0, s') && |s'.nodes| == |s.nodes| && s'.world == s.world
    ensures Between(s'.nodes[i]) && s'.nodes[i].queue == rest && s'.nodes[i].cache == Dropped(s.nodes[i].cache, keys)
  {
    var a := HandleFirst(CacheNode.REAL, cat, ANY, s0, s, i, keys, tx, rest);
    var j := Unused(s.nodes[i].tasks.Keys);
    s' := NodeStep1(CacheNode.REAL, cat, ANY, s0, a, i, CacheNode.Finish(j));
  }

  lemma NodeHandlesFirst(cat: Catalog, s0: State, s: State, i: nat) returns (s': State)
    requires Leads(CacheNode.REAL, cat, ANY, s0, s) && i < |s.nodes| && Between(s.nodes[i]) && s.nodes[i].queue != []
    ensures Leads(CacheNode.REAL, cat, ANY, s0, s') && |s'.nodes| == |s.nodes| && s'.world == s.world
    ensures Between(s'.nodes[i]) && s'.nodes[i].queue == s.nodes[i].queue[1..]
    ensures s'.nodes[i].cache == DroppedBy(s.nodes[i].cache, [s.nodes[i].queue[0]])
  {
    var m, rest := s.nodes[i].queue[0], s.nodes[i].queue[1..];
    assert [m][1..] == [] && s.nodes[i].queue == [m] + rest;
    match m {
      case DelKeys(keys, tx) => s' := NodeHandlesKeys(cat, s0, s, i, keys, tx, rest);
      case DelAll => s' := NodeStep1(CacheNode.REAL, cat, ANY, s0, s, i, CacheNode.Deliver);
    }
  }

  /** Undisturbed, a node handles everything that is queued. */
  lemma {:induction false} NodeHandles(cat: Catalog, s0: State, s: State, i: nat) returns (s': State)
    requires Leads(CacheNode.REAL, cat, ANY, s0, s) && i < |s.nodes| && Between(s.nodes[i])
    ensures Leads(CacheNode.REAL, cat, ANY, s0, s') && |s'.nodes| == |s.nodes| && s'.world == s.world
    ensures Between(s'.nodes[i]) && s'.nodes[i].queue == []
    ensures s'.nodes[i].cache == DroppedBy(s.nodes[i].cache, s.nodes[i].queue)
    decreases |s.nodes[i].queue|
  {
    if s.nodes[i].queue == [] {
      s' := s;
    } else {
      var ms := s.nodes[i].queue;
      var a := NodeHandlesFirst(cat, s0, s, i);
      s' := NodeHandles(cat, s0, a, i);
      assert [ms[0]][1..] == [];
    }
  }

  /**
   The loop, given the messages queued at a node, leaves the image of the entries that the node
   has once it has handled them, and arms the deletions of their keys once more, in order.
   */
  method SubActionOnImage(sub: Subscription, ghost f: Writing, ds: seq<Delivery>,
                          ghost cat: Catalog, ghost s: State, ghost i: nat)
    returns (ghost s': State)
    requires i < |s.nodes| && Between(s.nodes[i])
    requires Images(f, sub.mem.store, s.nodes[i].cache) && PlainKeys(f, s.nodes[i].cache)
    requires DeliversAll(sub.app, f, s.nodes[i].queue, ds) && PlainMessages(f, s.nodes[i].queue)
    modifies sub.mem
    ensures Leads(CacheNode.REAL, cat, ANY, s, s') && i < |s'.nodes| && s'.world == s.world
    ensures Between(s'.nodes[i]) && s'.nodes[i].queue == [] && Images(f, sub.mem.store, s'.nodes[i].cache)
    ensures sub.mem.armed == old(sub.mem.armed) + Deletions(sub.app, ds)
  {
    ghost var store := sub.mem.store;
    sub.SubAction(ds);
    NoneStops(sub.app, f, s.nodes[i].queue, ds);
    LeftByIsImage(sub.app, f, store, s.nodes[i].cache, s.nodes[i].queue, ds, sub.mem.store);
    Here(CacheNode.REAL, cat, ANY, s);
    s' := NodeHandles(cat, s, s, i);
  }
}
