/**
 One user's sessions, one after the other, as runs of the whole system: every run of TokenSessions
 is the token's part of some run in which a single node is asked.
 */
module TokenRuns {
  import opened CacheNode
  import opened Coherence
  import opened Rows
  import opened Runs
  import TokenSessions
  import opened Wrappers

  function Stored(s: State, id: int): Option<Token> {
    if id in s.world.tokens then Some(s.world.tokens[id]) else None
  }

  /** Only the token of `id` has changed, and no fill of it is under way at the node. */
  ghost predicate OnlyToken(s: State, s': State, i: nat, id: int) {
    && s'.policy == s.policy && i < |s'.nodes| && TokenKey(id) !in s'.nodes[i].inflight
    && forall other | other != id :: Stored(s', other) == Stored(s, other)
  }

  /** The node is asked, finds nothing cached and loads the token; a verification then holds what it serves. */
  lemma ReadsStored(cat: Catalog, s0: State, s: State, i: nat, id: int, v: nat) returns (s': State)
    requires Leads(REAL, cat, ANY, s0, s) && i < |s.nodes| && TokenKey(id) !in s.nodes[i].inflight
    requires id in s.world.tokens && v !in s.verifiers
    ensures Leads(REAL, cat, ANY, s0, s')
    ensures s' == s.(nodes := s'.nodes, verifiers := s.verifiers[v := Reading(id, s.world.tokens[id])])
    ensures i < |s'.nodes| && TokenKey(id) !in s'.nodes[i].inflight
  {
    var a := NodeStep1(REAL, cat, ANY, s0, s, i, Evict(TokenKey(id)));
    var b := Fill(REAL, cat, ANY, s0, a, i, TokenKey(id));
    s' := Step1(REAL, cat, ANY, s0, b, VerifyRead(v, id, i, s.world.tokens[id]));
  }

  /** What has been written is published. */
  lemma Publishes(cat: Catalog, s0: State, s: State, i: nat, id: int, w: nat) returns (s': State)
    requires Leads(REAL, cat, ANY, s0, s) && i < |s.nodes| && TokenKey(id) !in s.nodes[i].inflight && w in s.writers
    ensures Leads(REAL, cat, ANY, s0, s') && OnlyToken(s, s', i, id) && s'.now == s.now && s'.world == s.world
  {
    s' := Step1(REAL, cat, ANY, s0, s, PublishToken(w));
  }

  lemma VerifyWrites(cat: Catalog, s0: State, s: State, i: nat, id: int, v: nat) returns (s': State)
    requires Leads(REAL, cat, ANY, s0, s) && i < |s.nodes| && TokenKey(id) !in s.nodes[i].inflight
    requires v in s.verifiers && !s.verifiers[v].Reading? && s.verifiers[v].id == id
    ensures Leads(REAL, cat, ANY, s0, s') && OnlyToken(s, s', i, id) && s'.now == s.now
    ensures Stored(s', id) == if s.verifiers[v].Renewing? then Some(s.verifiers[v].token) else None
  {
    var w := Unused(s.writers.Keys);
    var a := Step1(REAL, cat, ANY, s0, s, VerifyWrite(v, w));
    s' := Publishes(cat, s0, a, i, id, w);
  }

  lemma DecidesAndWrites(cat: Catalog, s0: State, s: State, i: nat, id: int, v: nat) returns (s': State)
    requires Leads(REAL, cat, ANY, s0, s) && i < |s.nodes| && TokenKey(id) !in s.nodes[i].inflight
    requires id in s.world.tokens && v in s.verifiers && s.verifiers[v] == Reading(id, s.world.tokens[id])
    ensures Leads(REAL, cat, ANY, s0, s') && OnlyToken(s, s', i, id) && s'.now == s.now
    ensures var stored := s.world.tokens[id];
            Stored(s', id) == TokenSessions.Next(s.policy, stored.secret, Some(stored),
                                                 TokenSessions.Verify(s.now, stored.secret)).0
  {
    s' := Step1(REAL, cat, ANY, s0, s, VerifyDecide(v));
    if Decided(s.policy, s.now, id, s.world.tokens[id]).Some? {
      s' := VerifyWrites(cat, s0, s', i, id, v);
    }
  }

  lemma LoginIsRun(cat: Catalog, s0: State, s: State, i: nat, id: int, token: Token) returns (s': State)
    requires Leads(REAL, cat, ANY, s0, s) && i < |s.nodes| && TokenKey(id) !in s.nodes[i].inflight
    ensures Leads(REAL, cat, ANY, s0, s') && OnlyToken(s, s', i, id) && s'.now == s.now && Stored(s', id) == Some(token)
  {
    var w := Unused(s.writers.Keys);
    var a := Step1(REAL, cat, ANY, s0, s, PutToken(w, id, token));
    s' := Publishes(cat, s0, a, i, id, w);
  }

  lemma LogoutIsRun(cat: Catalog, s0: State, s: State, i: nat, id: int) returns (s': State)
    requires Leads(REAL, cat, ANY, s0, s) && i < |s.nodes| && TokenKey(id) !in s.nodes[i].inflight
    ensures Leads(REAL, cat, ANY, s0, s') && OnlyToken(s, s', i, id) && s'.now == s.now && Stored(s', id) == None
  {
    var w := Unused(s.writers.Keys);
    var a := Step1(REAL, cat, ANY, s0, s, RemoveToken(w, id));
    s' := Publishes(cat, s0, a, i, id, w);
  }

  /** A login, a logout or a verification, complete. */
  lemma EventIsRun(cat: Catalog, s0: State, s: State, i: nat, id: int, secret: string, e: TokenSessions.Event)
    returns (s': State)
    requires Leads(REAL, cat, ANY, s0, s) && i < |s.nodes| && TokenKey(id) !in s.nodes[i].inflight && e.now == s.now
    ensures Leads(REAL, cat, ANY, s0, s') && OnlyToken(s, s', i, id) && s'.now == s.now
    ensures Stored(s', id) == TokenSessions.Next(s.policy, secret, Stored(s, id), e).0
  {
    s' := s;
    match e
    case Login(now, multi) =>
      if !(multi && id in s.world.tokens) {
        s' := LoginIsRun(cat, s0, s, i, id, TokenSessions.Renewed(s.policy, secret, now));
      }
    case Logout(_) =>
      s' := LogoutIsRun(cat, s0, s, i, id);
    case Verify(now, presented) =>
      if id in s.world.tokens && s.world.tokens[id].secret == presented {
        var v := Unused(s.verifiers.Keys);
        var a := ReadsStored(cat, s0, s, i, id, v);
        s' := DecidesAndWrites(cat, s0, a, i, id, v);
      }
  }

  /**
   Every run of complete logins, logouts and verifications of a user is a run of the system that
   leaves the store as it says and nobody else's token changed.
   */
  lemma {:induction false} SessionsAreRuns(cat: Catalog, s0: State, s: State, i: nat, id: int, secret: string,
                                           events: seq<TokenSessions.Event>)
    returns (s': State)
    requires Leads(REAL, cat, ANY, s0, s) && i < |s.nodes| && TokenKey(id) !in s.nodes[i].inflight
    requires TokenSessions.Ordered(s.now, events)
    ensures Leads(REAL, cat, ANY, s0, s') && OnlyToken(s, s', i, id)
    ensures s'.now == TokenSessions.LastTime(s.now, events)
    ensures Stored(s', id) == TokenSessions.Run(s.policy, secret, Stored(s, id), events)
    decreases events
  {
    if events == [] {
      s' := s;
    } else {
      var a := Step1(REAL, cat, ANY, s0, s, Tick(events[0].now - s.now));
      var b := EventIsRun(cat, s0, a, i, id, secret, events[0]);
      s' := SessionsAreRuns(cat, s0, b, i, id, secret, events[1..]);
    }
  }
}
