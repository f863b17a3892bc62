/**
 A token removed from the store against verifications in flight: a verification reads the
 cache, decides by the clock, and may write back what it read with a new expiry.
 */
module LogoutRace {
  import opened CacheNode
  import opened Coherence
  import opened Rows
  import opened Runs
  import opened Wrappers

  predicate Live(token: Token, now: int) {
    now <= token.expire
  }

  ghost predicate Renewed(s: State, id: int) {
    exists v :: v in s.verifiers && s.verifiers[v].Renewing? && s.verifiers[v].id == id
  }

  ghost predicate HeldLive(s: State, id: int) {
    exists v :: v in s.verifiers && s.verifiers[v].Reading? && s.verifiers[v].id == id
                && Live(s.verifiers[v].token, s.now)
  }

  ghost predicate ServedLive(s: State, id: int) {
    exists i, token | 0 <= i < |s.nodes| :: Served(s.nodes[i], TokenKey(id), token) && Live(token, s.now)
  }

  /**
   Some verification has already renewed the token; or tokens are ever renewed, and an unexpired
   copy is held by a verification or still served at some node.
   */
  ghost predicate MayReturn(s: State, id: int) {
    Renewed(s, id) || (s.policy.maxRefresh > 0 && (HeldLive(s, id) || ServedLive(s, id)))
  }

  function NoLogin(id: int): Filter {
    st => !LogsIn(st, id)
  }

  /** The token gets back into the store without a login. */
  ghost predicate ComesBack(cat: Catalog, s: State, id: int) {
    exists s': State :: Leads(REAL, cat, NoLogin(id), s, s') && id in s'.world.tokens
  }

  // ---- Only then ----

  lemma NodeStepServesNoMore(cat: Catalog, w: World, now: int, open: set<nat>, n: Node, ns: NodeStep, id: int,
                             token: Token)
    requires NodeEnabled(REAL, cat, w, now, open, n, ns) && id !in w.tokens
    requires Served(NodeAfter(REAL, cat, w, now, open, n, ns), TokenKey(id), token)
    ensures Served(n, TokenKey(id), token)
  {
  }

  lemma ServedLiveBefore(cat: Catalog, s: State, st: Step, id: int)
    requires Enabled(REAL, cat, s, st) && id !in s.world.tokens && ServedLive(After(REAL, cat, s, st), id)
    ensures ServedLive(s, id)
  {
    var s' := After(REAL, cat, s, st);
    var i, token :| 0 <= i < |s'.nodes| && Served(s'.nodes[i], TokenKey(id), token) && Live(token, s'.now);
    if st.AtNode? && st.node == i {
      NodeStepServesNoMore(cat, s.world, s.now, s.txs.Keys, s.nodes[i], st.step, id, token);
    }
    assert Served(s.nodes[i], TokenKey(id), token) && Live(token, s.now);
  }

  lemma HeldLiveBefore(cat: Catalog, s: State, st: Step, id: int)
    requires Enabled(REAL, cat, s, st) && HeldLive(After(REAL, cat, s, st), id)
    ensures HeldLive(s, id) || ServedLive(s, id)
  {
    var s' := After(REAL, cat, s, st);
    var v :| v in s'.verifiers && s'.verifiers[v].Reading? && s'.verifiers[v].id == id
             && Live(s'.verifiers[v].token, s'.now);
    if st.VerifyRead? && st.verifier == v {
      assert Served(s.nodes[st.node], TokenKey(id), st.token) && Live(st.token, s.now);
    } else {
      assert v in s.verifiers && s.verifiers[v] == s'.verifiers[v];
    }
  }

  lemma RenewedBefore(cat: Catalog, s: State, st: Step, id: int)
    requires Enabled(REAL, cat, s, st) && Renewed(After(REAL, cat, s, st), id)
    ensures MayReturn(s, id)
  {
    var s' := After(REAL, cat, s, st);
    var v :| v in s'.verifiers && s'.verifiers[v].Renewing? && s'.verifiers[v].id == id;
    if st.VerifyDecide? && st.verifier == v {
      assert s.verifiers[v].id == id && Live(s.verifiers[v].token, s.now);
      assert HeldLive(s, id);
    } else {
      assert v in s.verifiers && s.verifiers[v] == s'.verifiers[v];
    }
  }

  lemma StepKeepsAway(cat: Catalog, s: State, st: Step, id: int)
    requires id !in s.world.tokens && !MayReturn(s, id) && Enabled(REAL, cat, s, st) && !LogsIn(st, id)
    ensures id !in After(REAL, cat, s, st).world.tokens && !MayReturn(After(REAL, cat, s, st), id)
  {
    var s' := After(REAL, cat, s, st);
    if Renewed(s', id) { RenewedBefore(cat, s, st, id); }
    if HeldLive(s', id) { HeldLiveBefore(cat, s, st, id); }
    if ServedLive(s', id) { ServedLiveBefore(cat, s, st, id); }
    if st.VerifyWrite? && s.verifiers[st.verifier].id == id {
      assert s.verifiers[st.verifier].Expiring?;
    }
  }

  lemma {:induction false} StaysAway(cat: Catalog, s: State, steps: seq<Step>, id: int)
    requires id !in s.world.tokens && !MayReturn(s, id)
    requires Exec(REAL, cat, s, steps).Some? && AllPass(NoLogin(id), steps)
    ensures id !in Exec(REAL, cat, s, steps).value.world.tokens
    decreases steps
  {
    if steps != [] {
      assert NoLogin(id)(steps[0]);
      StepKeepsAway(cat, s, steps[0], id);
      assert AllPass(NoLogin(id), steps[1..]);
      StaysAway(cat, After(REAL, cat, s, steps[0]), steps[1..], id);
    }
  }

  // ---- Then indeed ----

  lemma RenewedReturns(cat: Catalog, s0: State, s: State, id: int)
    requires Leads(REAL, cat, NoLogin(id), s0, s) && Renewed(s, id)
    ensures ComesBack(cat, s0, id)
  {
    var v :| v in s.verifiers && s.verifiers[v].Renewing? && s.verifiers[v].id == id;
    var w := Unused(s.writers.Keys);
    var s' := Step1(REAL, cat, NoLogin(id), s0, s, VerifyWrite(v, w));
  }

  /** The verification waits until the very end of the token's life. */
  lemma HeldReturns(cat: Catalog, s0: State, s: State, id: int)
    requires Leads(REAL, cat, NoLogin(id), s0, s) && s.policy.maxRefresh > 0 && HeldLive(s, id)
    ensures ComesBack(cat, s0, id)
  {
    var v :| v in s.verifiers && s.verifiers[v].Reading? && s.verifiers[v].id == id && Live(s.verifiers[v].token, s.now);
    var a := Step1(REAL, cat, NoLogin(id), s0, s, Tick(s.verifiers[v].token.expire - s.now));
    var b := Step1(REAL, cat, NoLogin(id), s0, a, VerifyDecide(v));
    assert b.verifiers[v].Renewing? && b.verifiers[v].id == id;
    RenewedReturns(cat, s0, b, id);
  }

  lemma ServedReturns(cat: Catalog, s: State, id: int)
    requires s.policy.maxRefresh > 0 && ServedLive(s, id)
    ensures ComesBack(cat, s, id)
  {
    var i, token :| 0 <= i < |s.nodes| && Served(s.nodes[i], TokenKey(id), token) && Live(token, s.now);
    var v := Unused(s.verifiers.Keys);
    Here(REAL, cat, NoLogin(id), s);
    var a := Step1(REAL, cat, NoLogin(id), s, s, VerifyRead(v, id, i, token));
    assert a.verifiers[v] == Reading(id, token);
    HeldReturns(cat, s, a, id);
  }

  /**
   With the token gone from the store, it comes back without a login in some run exactly when a
   verification has renewed it already, or tokens are ever renewed and an unexpired copy is
   held by a verification or served at a node.
   */
  lemma ComesBackIff(cat: Catalog, s: State, id: int)
    requires id !in s.world.tokens
    ensures ComesBack(cat, s, id) <==> MayReturn(s, id)
  {
    Here(REAL, cat, NoLogin(id), s);
    if !MayReturn(s, id) {
      if ComesBack(cat, s, id) {
        var s': State :| Leads(REAL, cat, NoLogin(id), s, s') && id in s'.world.tokens;
        var steps: seq<Step> :| AllPass(NoLogin(id), steps) && Exec(REAL, cat, s, steps) == Some(s');
        StaysAway(cat, s, steps, id);
      }
    } else if Renewed(s, id) {
      RenewedReturns(cat, s, s, id);
    } else if HeldLive(s, id) {
      HeldReturns(cat, s, s, id);
    } else {
      ServedReturns(cat, s, id);
    }
  }
}
