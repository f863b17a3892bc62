/**
 Sliding expiry when verifications overlap. A refresh is a read, a decision and a later write, with
 nothing to stop other writes in between, so a stored expiry can go back, and a client that
 keeps up can be refused. What is still guaranteed depends on how long writes may take.
 */
module RefreshRace {
  import opened CacheNode
  import opened Coherence
  import opened Rows
  import opened Runs
  import opened Wrappers

  /** A client: it uses one verifier, so its verifications come one after the other. */
  datatype Client = Client(verifier: nat, id: int)

  predicate HeldBy(s: State, v: nat, id: int) {
    v in s.verifiers && s.verifiers[v].id == id
  }

  predicate Pending(s: State, v: nat, id: int) {
    HeldBy(s, v, id) && s.verifiers[v].Renewing?
  }

  /** When a verification that is about to write decided to. */
  function DecidedAt(s: State, v: nat): int
    requires v in s.verifiers && s.verifiers[v].Renewing?
  {
    s.verifiers[v].token.expire - s.policy.timeout
  }

  /** The verification accepts its token as it is. */
  predicate AcceptsAsIs(s: State, v: nat, id: int) {
    HeldBy(s, v, id) && s.verifiers[v].Reading? && Decided(s.policy, s.now, id, s.verifiers[v].token).None?
  }

  /** The verification finds its token expired. */
  predicate Refuses(s: State, v: nat, id: int) {
    HeldBy(s, v, id) && s.verifiers[v].Reading? && s.verifiers[v].token.expire < s.now
  }

  /**
   Decisions are made on the copy that is stored, and what is decided, by a verification or a login,
   is written within `d`; nobody logs the user out.
   */
  predicate Prompt(s: State, id: int, d: int, st: Step) {
    match st
    case VerifyDecide(v) =>
      HeldBy(s, v, id) && s.verifiers[v].Reading? ==> id in s.world.tokens && s.verifiers[v].token == s.world.tokens[id]
    case VerifyWrite(v, _) => Pending(s, v, id) ==> s.now <= DecidedAt(s, v) + d
    case PutToken(_, i, token) => i == id ==> s.now + s.policy.timeout <= token.expire + d
    case RemoveToken(_, i) => i != id
    case _ => true
  }

  /** A verification that found the token expired removes it. */
  predicate Removes(s: State, id: int, st: Step) {
    st.VerifyWrite? && HeldBy(s, st.verifier, id) && s.verifiers[st.verifier].Expiring?
  }

  /** The step completes a successful verification of the client. */
  predicate Completes(s: State, c: Client, st: Step) {
    || (st == VerifyDecide(c.verifier) && AcceptsAsIs(s, c.verifier, c.id))
    || (st.VerifyWrite? && st.verifier == c.verifier && Pending(s, c.verifier, c.id))
  }

  /** The time of the decision of the client's last completed successful verification. */
  function SinceAfter(s: State, c: Client, since: int, st: Step): int {
    if !Completes(s, c, st) then since
    else if st.VerifyDecide? then s.now
    else DecidedAt(s, c.verifier)
  }

  /** The client decides again within `g` of its last completed verification, and writes within `d`. */
  predicate Punctual(s: State, c: Client, since: int, g: int, d: int) {
    s.now <= Until(s, c, since, g, d)
  }

  /** A run in which the client keeps up and everyone is prompt; without `removals` nobody removes the token. */
  ghost predicate Fair(cat: Catalog, c: Client, g: int, d: int, removals: bool, s: State, since: int, steps: seq<Step>)
    decreases steps
  {
    && Punctual(s, c, since, g, d)
    && (steps == []
        || (&& Enabled(REAL, cat, s, steps[0]) && Prompt(s, c.id, d, steps[0])
            && (removals || !Removes(s, c.id, steps[0]))
            && Fair(cat, c, g, d, removals, After(REAL, cat, s, steps[0]), SinceAfter(s, c, since, steps[0]), steps[1..])))
  }

  /** The step refuses the client, or with `all` anyone who presents its token. */
  predicate RefusesAt(s: State, c: Client, all: bool, st: Step) {
    st.VerifyDecide? && Refuses(s, st.verifier, c.id) && (all || st.verifier == c.verifier)
  }

  /** The token stays stored and is never found expired. */
  ghost predicate NeverRefused(cat: Catalog, c: Client, all: bool, s: State, steps: seq<Step>)
    decreases steps
  {
    && c.id in s.world.tokens
    && (steps == []
        || (&& !RefusesAt(s, c, all, steps[0])
            && (Enabled(REAL, cat, s, steps[0]) ==> NeverRefused(cat, c, all, After(REAL, cat, s, steps[0]), steps[1..]))))
  }

  predicate NoneExpiring(s: State, id: int) {
    forall v | v in s.verifiers :: !(s.verifiers[v].id == id && s.verifiers[v].Expiring?)
  }

  /** A reachable state in which the client is about to complete a successful verification, promptly. */
  ghost predicate Begins(cat: Catalog, p: Policy, c: Client, d: int, all: bool, s: State, st: Step) {
    && Reachable(REAL, cat, s) && s.policy == p
    && Enabled(REAL, cat, s, st) && Prompt(s, c.id, d, st) && Completes(s, c, st)
    && (all ==> NoneExpiring(s, c.id))
  }

  /**
   After a successful verification, a client that decides again within `g` each time is never refused,
   whatever else is done promptly: with `all`, nobody is refused and nobody removes the token;
   without, the client is not, as long as nobody removes it.
   */
  ghost predicate Guaranteed(p: Policy, g: int, d: int, all: bool) {
    forall cat: Catalog, s: State, st: Step, c: Client, steps: seq<Step> ::
      Begins(cat, p, c, d, all, s, st)
      && Fair(cat, c, g, d, all, After(REAL, cat, s, st), SinceAfter(s, c, s.now, st), steps)
      ==> NeverRefused(cat, c, all, After(REAL, cat, s, st), steps)
  }

  // ---- When the guarantee holds ----

  /** What a prompt write or an acceptance leaves of the token's life. */
  function Margin(p: Policy, d: int): int {
    if p.maxRefresh <= p.timeout - d then p.maxRefresh else p.timeout - d
  }

  predicate Suffices(p: Policy, g: int, d: int, all: bool) {
    g + (if all then d else 0) <= Margin(p, d)
  }

  /** The stored expiry is far enough from the client's last completed decision. */
  predicate Holds(s: State, c: Client, since: int, g: int, d: int, all: bool) {
    && c.id in s.world.tokens && since + Margin(s.policy, d) <= s.world.tokens[c.id].expire
    && since <= s.now
    && (Pending(s, c.verifier, c.id) ==> DecidedAt(s, c.verifier) <= s.now && DecidedAt(s, c.verifier) <= since + g)
    && (all ==> NoneExpiring(s, c.id))
  }

  lemma VerifyStepHolds(cat: Catalog, c: Client, g: int, d: int, all: bool, s: State, since: int, st: Step)
    requires st.VerifyDecide? || st.VerifyWrite?
    requires 0 <= d && Suffices(s.policy, g, d, all)
    requires Holds(s, c, since, g, d, all) && Punctual(s, c, since, g, d)
    requires Enabled(REAL, cat, s, st) && Prompt(s, c.id, d, st) && (all || !Removes(s, c.id, st))
    ensures Holds(After(REAL, cat, s, st), c, SinceAfter(s, c, since, st), g, d, all)
    ensures !RefusesAt(s, c, all, st)
  {
  }

  lemma StepHolds(cat: Catalog, c: Client, g: int, d: int, all: bool, s: State, since: int, st: Step)
    requires 0 <= d && Suffices(s.policy, g, d, all)
    requires Holds(s, c, since, g, d, all) && Punctual(s, c, since, g, d)
    requires Enabled(REAL, cat, s, st) && Prompt(s, c.id, d, st) && (all || !Removes(s, c.id, st))
    ensures Holds(After(REAL, cat, s, st), c, SinceAfter(s, c, since, st), g, d, all)
    ensures !RefusesAt(s, c, all, st)
  {
    if st.VerifyDecide? || st.VerifyWrite? {
      VerifyStepHolds(cat, c, g, d, all, s, since, st);
    }
  }

  lemma {:induction false} FairIsNeverRefused(cat: Catalog, c: Client, g: int, d: int, all: bool, s: State, since: int,
                                              steps: seq<Step>)
    requires 0 <= d && Suffices(s.policy, g, d, all) && Holds(s, c, since, g, d, all)
    requires Fair(cat, c, g, d, all, s, since, steps)
    ensures NeverRefused(cat, c, all, s, steps)
    decreases steps
  {
    if steps != [] {
      StepHolds(cat, c, g, d, all, s, since, steps[0]);
      FairIsNeverRefused(cat, c, g, d, all, After(REAL, cat, s, steps[0]), SinceAfter(s, c, since, steps[0]), steps[1..]);
    }
  }

  predicate DecidedInPast(s: State) {
    forall v | v in s.verifiers :: s.verifiers[v].Renewing? ==> DecidedAt(s, v) <= s.now
  }

  lemma {:induction false} RunDecidedInPast(cat: Catalog, s: State, steps: seq<Step>)
    requires DecidedInPast(s) && Exec(REAL, cat, s, steps).Some?
    ensures DecidedInPast(Exec(REAL, cat, s, steps).value)
    decreases steps
  {
    if steps != [] {
      RunDecidedInPast(cat, After(REAL, cat, s, steps[0]), steps[1..]);
    }
  }

  lemma ReachableDecidedInPast(cat: Catalog, s: State)
    requires Reachable(REAL, cat, s)
    ensures DecidedInPast(s)
  {
    var s0: State, steps: seq<Step> :| Start(cat, s0) && Exec(REAL, cat, s0, steps) == Some(s);
    RunDecidedInPast(cat, s0, steps);
  }

  lemma CompletionHolds(cat: Catalog, p: Policy, c: Client, g: nat, d: nat, all: bool, s: State, st: Step)
    requires Begins(cat, p, c, d, all, s, st)
    ensures Holds(After(REAL, cat, s, st), c, SinceAfter(s, c, s.now, st), g, d, all)
  {
    ReachableDecidedInPast(cat, s);
  }

  // ---- When it does not ----

  ghost predicate CanBeRefused(cat: Catalog, c: Client, g: int, d: int, all: bool, s: State, since: int) {
    exists steps: seq<Step> :: Fair(cat, c, g, d, all, s, since, steps) && !NeverRefused(cat, c, all, s, steps)
  }

  lemma Earlier(cat: Catalog, c: Client, g: int, d: int, all: bool, s: State, since: int, st: Step)
    requires Punctual(s, c, since, g, d) && Enabled(REAL, cat, s, st) && Prompt(s, c.id, d, st)
    requires all || !Removes(s, c.id, st)
    requires CanBeRefused(cat, c, g, d, all, After(REAL, cat, s, st), SinceAfter(s, c, since, st))
    ensures CanBeRefused(cat, c, g, d, all, s, since)
  {
    var s', since' := After(REAL, cat, s, st), SinceAfter(s, c, since, st);
    var rest: seq<Step> :| Fair(cat, c, g, d, all, s', since', rest) && !NeverRefused(cat, c, all, s', rest);
    var steps := [st] + rest;
    assert steps[0] == st && steps[1..] == rest;
    assert Fair(cat, c, g, d, all, s, since, steps);
    assert !NeverRefused(cat, c, all, s, steps);
  }

  lemma AtOnce(cat: Catalog, c: Client, g: int, d: int, all: bool, s: State, since: int, st: Step)
    requires Punctual(s, c, since, g, d) && Enabled(REAL, cat, s, st) && Prompt(s, c.id, d, st)
    requires RefusesAt(s, c, all, st)
    ensures CanBeRefused(cat, c, g, d, all, s, since)
  {
    var steps := [st];
    assert steps[1..] == [];
    assert !Completes(s, c, st);
    assert Fair(cat, c, g, d, all, s, since, steps);
  }

  /** How long the client may wait from here. */
  function Until(s: State, c: Client, since: int, g: int, d: int): int {
    if Pending(s, c.verifier, c.id) then DecidedAt(s, c.verifier) + d else since + g
  }

  /** The node can be asked for the token without anything in the way. */
  predicate Untouched(n: Node, id: int) {
    TokenKey(id) !in n.cache && TokenKey(id) !in n.inflight
  }

  function Loaded(s: State, i: nat, id: int): State
    requires i < |s.nodes| && id in s.world.tokens
  {
    With(s, i, s.nodes[i].(inflight := s.nodes[i].inflight[TokenKey(id) := Some(TokenBlob(s.world.tokens[id]))]))
  }

  /** A verification has read the current copy at a node and holds it at time `at`. */
  function Presented(s: State, i: nat, v: nat, id: int, at: int): State
    requires i < |s.nodes| && id in s.world.tokens
  {
    Loaded(s, i, id).(now := at, verifiers := s.verifiers[v := Reading(id, s.world.tokens[id])])
  }

  lemma Loads(cat: Catalog, c: Client, g: int, d: int, all: bool, s: State, since: int, i: nat)
    requires i < |s.nodes| && Untouched(s.nodes[i], c.id) && c.id in s.world.tokens
    requires Punctual(s, c, since, g, d) && CanBeRefused(cat, c, g, d, all, Loaded(s, i, c.id), since)
    ensures CanBeRefused(cat, c, g, d, all, s, since)
  {
    var k, token := TokenKey(c.id), s.world.tokens[c.id];
    var n := s.nodes[i];
    var lock, read := AtNode(i, Lock(k)), AtNode(i, Read(k));
    var locked := With(s, i, n.(inflight := n.inflight[k := None]));
    assert After(REAL, cat, s, lock) == locked;
    assert After(REAL, cat, locked, read) == Loaded(s, i, c.id) by {
      assert n.inflight[k := None][k := Some(TokenBlob(token))] == n.inflight[k := Some(TokenBlob(token))];
    }
    Earlier(cat, c, g, d, all, locked, since, read);
    Earlier(cat, c, g, d, all, s, since, lock);
  }

  lemma Presents(cat: Catalog, c: Client, g: int, d: int, all: bool, s: State, since: int, i: nat, v: nat, at: int)
    requires i < |s.nodes| && Untouched(s.nodes[i], c.id) && v !in s.verifiers && c.id in s.world.tokens
    requires s.now <= at <= Until(s, c, since, g, d)
    requires CanBeRefused(cat, c, g, d, all, Presented(s, i, v, c.id, at), since)
    ensures CanBeRefused(cat, c, g, d, all, s, since)
  {
    var loaded := Loaded(s, i, c.id);
    var later := loaded.(now := at);
    var tick, take := Tick(at - s.now), VerifyRead(v, c.id, i, s.world.tokens[c.id]);
    assert After(REAL, cat, loaded, tick) == later;
    assert Served(later.nodes[i], TokenKey(c.id), s.world.tokens[c.id]);
    assert After(REAL, cat, later, take) == Presented(s, i, v, c.id, at);
    Earlier(cat, c, g, d, all, later, since, take);
    Earlier(cat, c, g, d, all, loaded, since, tick);
    Loads(cat, c, g, d, all, s, since, i);
  }

  /** The current copy is presented within the time allowed, but after its expiry. */
  lemma ComesTooLate(cat: Catalog, c: Client, g: int, d: int, all: bool, s: State, since: int, i: nat, v: nat, at: int)
    requires i < |s.nodes| && Untouched(s.nodes[i], c.id) && v !in s.verifiers && c.id in s.world.tokens
    requires s.now <= at <= Until(s, c, since, g, d) && (all || v == c.verifier)
    requires s.world.tokens[c.id].expire < at
    ensures CanBeRefused(cat, c, g, d, all, s, since)
  {
    var late := Presented(s, i, v, c.id, at);
    AtOnce(cat, c, g, d, all, late, since, VerifyDecide(v));
    Presents(cat, c, g, d, all, s, since, i, v, at);
  }

  const CLIENT := Client(0, 0)

  /** The client has just been accepted as it is, with the token stored until `expire`. */
  predicate JustAccepted(s: State, p: Policy, expire: int) {
    && s.world.tokens == map[0 := Token("", expire)] && s.policy == p && s.now == 0
    && s.verifiers == map[] && |s.nodes| == 3 && Untouched(s.nodes[1], 0) && Untouched(s.nodes[2], 0)
  }

  lemma Accepted(p: Policy, d: nat, all: bool, expire: int) returns (s: State)
    requires 0 <= expire && p.maxRefresh <= expire
    ensures Begins(map[], p, CLIENT, d, all, s, VerifyDecide(0)) && s.now == 0
    ensures JustAccepted(After(REAL, map[], s, VerifyDecide(0)), p, expire) && s.writers == map[]
    ensures SinceAfter(s, CLIENT, s.now, VerifyDecide(0)) == 0
  {
    s := ReadOnce(p, Token("", expire));
    assert After(REAL, map[], s, VerifyDecide(0)).verifiers == map[];
  }

  lemma ReadOnce(p: Policy, token: Token) returns (s: State)
    ensures Reachable(REAL, map[], s) && s.now == 0 && s.policy == p && s.world.tokens == map[0 := token]
    ensures s.verifiers == map[0 := Reading(0, token)] && s.writers == map[]
    ensures |s.nodes| == 3 && Untouched(s.nodes[1], 0) && Untouched(s.nodes[2], 0)
  {
    var s0 := State(World(map[], map[0 := token]), p, map[], {}, map[], map[], [EMPTY, EMPTY, EMPTY], 0);
    StartReachable(REAL, map[], s0);
    Here(REAL, map[], ANY, s0);
    var a := Fill(REAL, map[], ANY, s0, s0, 0, TokenKey(0));
    s := Step1(REAL, map[], ANY, s0, a, VerifyRead(0, 0, 0, token));
    LeadsReachable(REAL, map[], ANY, s0, s);
  }

  /** A login made earlier is written `d` late. */
  lemma AfterLateLogin(g: nat, d: nat, all: bool, s: State, p: Policy, expire: int, s': State)
    requires JustAccepted(s, p, expire) && s.writers == map[]
    requires s' == After(REAL, map[], s, PutToken(0, 0, Token("", p.timeout - d)))
    requires CanBeRefused(map[], CLIENT, g, d, all, s', 0)
    ensures JustAccepted(s', p, p.timeout - d) && CanBeRefused(map[], CLIENT, g, d, all, s, 0)
  {
    Earlier(map[], CLIENT, g, d, all, s, 0, PutToken(0, 0, Token("", p.timeout - d)));
  }

  /** The client comes in time, and before it has written, somebody else comes too late. */
  lemma SomeoneElseComesTooLate(g: nat, d: nat, s: State, p: Policy, expire: int)
    requires JustAccepted(s, p, expire) && 0 < g <= expire < g + d && expire <= p.maxRefresh
    ensures CanBeRefused(map[], CLIENT, g, d, true, s, 0)
  {
    var a := Presented(s, 1, 0, 0, g);
    var b := After(REAL, map[], a, VerifyDecide(0));
    assert b.verifiers[0] == Renewing(0, Token("", g + p.timeout));
    ComesTooLate(map[], CLIENT, g, d, true, b, 0, 2, 1, g + d);
    Earlier(map[], CLIENT, g, d, true, a, 0, VerifyDecide(0));
    Presents(map[], CLIENT, g, d, true, s, 0, 1, 0, g);
  }

  lemma InsufficientIsRefused(p: Policy, g: nat, d: nat, all: bool, s: State, expire: int)
    requires 0 < g && !Suffices(p, g, d, all)
    requires expire == (if p.maxRefresh < 0 then 0 else p.maxRefresh)
    requires JustAccepted(s, p, expire) && s.writers == map[]
    ensures CanBeRefused(map[], CLIENT, g, d, all, s, 0)
  {
    if p.maxRefresh < g {
      ComesTooLate(map[], CLIENT, g, d, all, s, 0, 1, 0, expire + 1);
    } else if p.maxRefresh <= p.timeout - d {
      SomeoneElseComesTooLate(g, d, s, p, expire);
    } else {
      var s' := After(REAL, map[], s, PutToken(0, 0, Token("", p.timeout - d)));
      if p.timeout - d < g {
        ComesTooLate(map[], CLIENT, g, d, all, s', 0, 1, 0, g);
      } else {
        SomeoneElseComesTooLate(g, d, s', p, p.timeout - d);
      }
      AfterLateLogin(g, d, all, s, p, expire, s');
    }
  }

  /**
   With verifications that overlap, each reading the current copy and writing within `d`, a client
   whose gaps are at most `g` is never refused exactly if `g` is within the renewal window and
   `g + d` within the timeout. Nobody is refused, and nobody removes the token, exactly if
   `g + d` is within the window and `g + 2 * d` within the timeout.
   */
  lemma GuaranteedIff(p: Policy, g: nat, d: nat, all: bool)
    ensures 0 < g ==>
              var wait := if all then g + d else g;
              Guaranteed(p, g, d, all) <==> wait <= p.maxRefresh && wait + d <= p.timeout
  {
    if Suffices(p, g, d, all) {
      forall cat: Catalog, s: State, st: Step, c: Client, steps: seq<Step> |
        Begins(cat, p, c, d, all, s, st)
        && Fair(cat, c, g, d, all, After(REAL, cat, s, st), SinceAfter(s, c, s.now, st), steps)
        ensures NeverRefused(cat, c, all, After(REAL, cat, s, st), steps)
      {
        CompletionHolds(cat, p, c, g, d, all, s, st);
        FairIsNeverRefused(cat, c, g, d, all, After(REAL, cat, s, st), SinceAfter(s, c, s.now, st), steps);
      }
    } else if 0 < g {
      var expire := if p.maxRefresh < 0 then 0 else p.maxRefresh;
      var s := Accepted(p, d, all, expire);
      InsufficientIsRefused(p, g, d, all, After(REAL, map[], s, VerifyDecide(0)), expire);
    }
  }

  // ---- The stored expiry goes back ----

  /** Verifications decide on the copy that is stored, and nobody logs in or out. */
  predicate Current(s: State, id: int, st: Step) {
    match st
    case VerifyDecide(v) =>
      HeldBy(s, v, id) && s.verifiers[v].Reading? ==> id in s.world.tokens && s.verifiers[v].token == s.world.tokens[id]
    case PutToken(_, i, _) => i != id
    case RemoveToken(_, i) => i != id
    case _ => true
  }

  ghost predicate AllCurrent(cat: Catalog, id: int, s: State, steps: seq<Step>)
    decreases steps
  {
    steps == [] || (Enabled(REAL, cat, s, steps[0]) && Current(s, id, steps[0])
                    && AllCurrent(cat, id, After(REAL, cat, s, steps[0]), steps[1..]))
  }

  ghost predicate LeadsCurrent(cat: Catalog, id: int, s: State, s': State) {
    exists steps: seq<Step> :: AllCurrent(cat, id, s, steps) && Exec(REAL, cat, s, steps) == Some(s')
  }

  lemma {:induction false} OneMoreCurrent(cat: Catalog, id: int, s: State, steps: seq<Step>, st: Step)
    requires AllCurrent(cat, id, s, steps) && Exec(REAL, cat, s, steps).Some?
    requires var s' := Exec(REAL, cat, s, steps).value; Enabled(REAL, cat, s', st) && Current(s', id, st)
    ensures AllCurrent(cat, id, s, steps + [st])
    decreases steps
  {
    if steps == [] {
      assert steps + [st] == [st] && [st][1..] == [];
    } else {
      assert (steps + [st])[1..] == steps[1..] + [st];
      OneMoreCurrent(cat, id, After(REAL, cat, s, steps[0]), steps[1..], st);
    }
  }

  lemma CurrentStep(cat: Catalog, id: int, s0: State, s: State, st: Step) returns (s': State)
    requires LeadsCurrent(cat, id, s0, s) && Enabled(REAL, cat, s, st) && Current(s, id, st)
    ensures s' == After(REAL, cat, s, st) && LeadsCurrent(cat, id, s0, s')
  {
    s' := After(REAL, cat, s, st);
    var steps: seq<Step> :| AllCurrent(cat, id, s0, steps) && Exec(REAL, cat, s0, steps) == Some(s);
    OneMoreCurrent(cat, id, s0, steps, st);
    ExecAppend(REAL, cat, s0, steps, [st]);
    ExecOne(REAL, cat, s, st);
  }

  /** A verification is about to refuse the token that is stored. */
  predicate RefusesStored(s: State, v: nat, id: int) {
    Refuses(s, v, id) && id in s.world.tokens && s.verifiers[v].token == s.world.tokens[id]
  }

  /** The token is stored for the full timeout from now on. */
  predicate FullyRenewed(s: State, id: int) {
    id in s.world.tokens && s.world.tokens[id].expire == s.now + s.policy.timeout
  }

  /**
   In some run of verifications alone, each deciding on the current copy, a token stored for the
   full timeout is refused one tick later.
   */
  ghost predicate CanTurnAway(p: Policy) {
    exists cat: Catalog, s0: State, s: State, s': State, v: nat, id: int ::
      Start(cat, s0) && s0.policy == p && LeadsCurrent(cat, id, s0, s) && FullyRenewed(s, id)
      && LeadsCurrent(cat, id, s, s') && s'.now == s.now + 1 && RefusesStored(s', v, id)
  }

  predicate NoneRenewing(s: State) {
    forall v | v in s.verifiers :: !s.verifiers[v].Renewing?
  }

  lemma {:induction false} NobodyRenews(cat: Catalog, id: int, s: State, steps: seq<Step>)
    requires s.policy.maxRefresh <= 0 && NoneRenewing(s)
    requires AllCurrent(cat, id, s, steps) && Exec(REAL, cat, s, steps).Some?
    ensures var s' := Exec(REAL, cat, s, steps).value;
            NoneRenewing(s') && s'.policy == s.policy
            && (id in s'.world.tokens ==> id in s.world.tokens && s'.world.tokens[id] == s.world.tokens[id])
    decreases steps
  {
    if steps != [] {
      NobodyRenews(cat, id, After(REAL, cat, s, steps[0]), steps[1..]);
    }
  }

  /** A verification reads the current copy at a fresh node. */
  lemma TakesCurrent(s0: State, s: State, i: nat, v: nat) returns (s': State)
    requires LeadsCurrent(map[], 0, s0, s) && i < |s.nodes| && Untouched(s.nodes[i], 0)
    requires v !in s.verifiers && 0 in s.world.tokens
    ensures LeadsCurrent(map[], 0, s0, s')
    ensures s' == s.(nodes := s'.nodes, verifiers := s.verifiers[v := Reading(0, s.world.tokens[0])])
    ensures |s'.nodes| == |s.nodes| && forall j | 0 <= j < |s.nodes| && j != i :: s'.nodes[j] == s.nodes[j]
  {
    var k, token := TokenKey(0), s.world.tokens[0];
    var n := s.nodes[i];
    var a := CurrentStep(map[], 0, s0, s, AtNode(i, Lock(k)));
    var b := CurrentStep(map[], 0, s0, a, AtNode(i, Read(k)));
    assert n.inflight[k := None][k := Some(TokenBlob(token))] == n.inflight[k := Some(TokenBlob(token))];
    s' := CurrentStep(map[], 0, s0, b, VerifyRead(v, 0, i, token));
  }

  lemma DecidesCurrent(s0: State, s: State, v: nat) returns (s': State)
    requires LeadsCurrent(map[], 0, s0, s) && HeldBy(s, v, 0) && s.verifiers[v].Reading?
    requires 0 in s.world.tokens && s.verifiers[v].token == s.world.tokens[0]
    requires 0 <= s.world.tokens[0].expire - s.now < s.policy.maxRefresh
    ensures LeadsCurrent(map[], 0, s0, s')
    ensures var renewed := s.world.tokens[0].(expire := s.now + s.policy.timeout);
            s' == s.(verifiers := s.verifiers[v := Renewing(0, renewed)])
  {
    s' := CurrentStep(map[], 0, s0, s, VerifyDecide(v));
  }

  lemma WritesCurrent(s0: State, s: State, v: nat, w: nat) returns (s': State)
    requires LeadsCurrent(map[], 0, s0, s) && Pending(s, v, 0) && w !in s.writers
    ensures LeadsCurrent(map[], 0, s0, s')
    ensures s' == s.(world := WithToken(s.world, 0, s.verifiers[v].token), writers := s.writers[w := 0],
                     verifiers := s.verifiers - {v})
  {
    s' := CurrentStep(map[], 0, s0, s, VerifyWrite(v, w));
  }

  lemma RenewsCurrent(s0: State, s: State, v: nat, w: nat) returns (s': State)
    requires LeadsCurrent(map[], 0, s0, s) && HeldBy(s, v, 0) && s.verifiers[v].Reading? && w !in s.writers
    requires 0 in s.world.tokens && s.verifiers[v].token == s.world.tokens[0]
    requires 0 <= s.world.tokens[0].expire - s.now < s.policy.maxRefresh
    ensures LeadsCurrent(map[], 0, s0, s')
    ensures var renewed := s.world.tokens[0].(expire := s.now + s.policy.timeout);
            s' == s.(world := WithToken(s.world, 0, renewed), writers := s.writers[w := 0], verifiers := s.verifiers - {v})
  {
    var a := DecidesCurrent(s0, s, v);
    s' := WritesCurrent(s0, a, v, w);
    assert s'.verifiers == s.verifiers - {v};
  }

  /** Two verifications read the token at the end of its life. */
  lemma TwoRead(p: Policy) returns (s0: State, s: State)
    ensures Start(map[], s0) && s0.policy == p && LeadsCurrent(map[], 0, s0, s)
    ensures s.now == 0 && s.policy == p && s.world.tokens == map[0 := Token("", 0)]
    ensures s.verifiers == map[1 := Reading(0, Token("", 0)), 2 := Reading(0, Token("", 0))] && s.writers == map[]
    ensures |s.nodes| == 4 && Untouched(s.nodes[2], 0) && Untouched(s.nodes[3], 0)
  {
    var token := Token("", 0);
    s0 := State(World(map[], map[0 := token]), p, map[], {}, map[], map[], [EMPTY, EMPTY, EMPTY, EMPTY], 0);
    StandsCurrent(s0);
    var a := TakesCurrent(s0, s0, 0, 1);
    s := TakesCurrent(s0, a, 1, 2);
  }

  /** Both renew it, and the first has written. */
  lemma FirstOfTwo(p: Policy) returns (s0: State, s: State)
    requires 0 < p.maxRefresh
    ensures Start(map[], s0) && s0.policy == p && LeadsCurrent(map[], 0, s0, s)
    ensures s.now == 0 && s.policy == p && s.world.tokens == map[0 := Token("", p.timeout)]
    ensures s.verifiers == map[2 := Renewing(0, Token("", p.timeout))] && s.writers == map[1 := 0]
    ensures |s.nodes| == 4 && Untouched(s.nodes[2], 0) && Untouched(s.nodes[3], 0)
  {
    var a;
    s0, a := TwoRead(p);
    var b := DecidesCurrent(s0, a, 2);
    s := WritesFirst(p, s0, b);
  }

  lemma WritesFirst(p: Policy, s0: State, s: State) returns (s': State)
    requires LeadsCurrent(map[], 0, s0, s) && 0 < p.maxRefresh
    requires s.now == 0 && s.policy == p && s.world.tokens == map[0 := Token("", 0)] && s.writers == map[]
    requires s.verifiers == map[1 := Reading(0, Token("", 0)), 2 := Renewing(0, Token("", p.timeout))]
    ensures LeadsCurrent(map[], 0, s0, s')
    ensures s' == s.(world := s'.world, writers := map[1 := 0], verifiers := map[2 := s.verifiers[2]])
    ensures s'.world.tokens == map[0 := Token("", p.timeout)]
  {
    s' := RenewsCurrent(s0, s, 1, 1);
    assert s'.verifiers == map[2 := s.verifiers[2]];
  }

  lemma StandsCurrent(s: State)
    ensures LeadsCurrent(map[], 0, s, s)
  {
    assert Exec(REAL, map[], s, []) == Some(s) && AllCurrent(map[], 0, s, []);
  }

  /** Once its life is over again a third verification renews it. */
  lemma ThirdRenews(p: Policy, s0: State, s: State) returns (s': State)
    requires 0 < p.maxRefresh && LeadsCurrent(map[], 0, s0, s)
    requires s.now == 0 && s.policy == p && s.world.tokens == map[0 := Token("", p.timeout)] && 0 < p.timeout
    requires s.verifiers == map[2 := Renewing(0, Token("", p.timeout))] && s.writers == map[1 := 0]
    requires |s.nodes| == 4 && Untouched(s.nodes[2], 0) && Untouched(s.nodes[3], 0)
    ensures LeadsCurrent(map[], 0, s0, s') && FullyRenewed(s', 0) && s'.now == p.timeout
    ensures s'.verifiers == map[2 := Renewing(0, Token("", p.timeout))] && s'.writers == map[1 := 0, 3 := 0]
    ensures |s'.nodes| == 4 && Untouched(s'.nodes[3], 0)
  {
    var a := CurrentStep(map[], 0, s0, s, Tick(p.timeout));
    var b := TakesCurrent(s0, a, 2, 3);
    s' := RenewsCurrent(s0, b, 3, 3);
    assert s'.verifiers == s.verifiers;
  }

  /** The second of the two writes only then, and the next verification comes too late. */
  lemma SecondWritesLate(s: State, expire: int) returns (s': State)
    requires s.verifiers == map[2 := Renewing(0, Token("", expire))] && s.writers == map[1 := 0, 3 := 0]
    requires |s.nodes| == 4 && Untouched(s.nodes[3], 0) && expire <= s.now
    ensures LeadsCurrent(map[], 0, s, s') && s'.now == s.now + 1 && RefusesStored(s', 4, 0)
  {
    StandsCurrent(s);
    var a := WritesCurrent(s, s, 2, 2);
    var b := CurrentStep(map[], 0, s, a, Tick(1));
    s' := TakesCurrent(s, b, 3, 4);
  }

  /** A token that lives for no time is refused at the next tick anyway. */
  lemma NoTimeTurnsAway(p: Policy)
    requires p.timeout <= 0
    ensures CanTurnAway(p)
  {
    var s := State(World(map[], map[0 := Token("", p.timeout)]), p, map[], {}, map[], map[], [EMPTY], 0);
    StandsCurrent(s);
    var a := CurrentStep(map[], 0, s, s, Tick(1));
    var s' := TakesCurrent(s, a, 0, 0);
    assert Start(map[], s) && RefusesStored(s', 0, 0);
  }

  lemma NotTurnedAway(p: Policy)
    requires p.maxRefresh <= 0 < p.timeout
    ensures !CanTurnAway(p)
  {
    if CanTurnAway(p) {
      var cat: Catalog, s0: State, s: State, s': State, v: nat, id: int :|
        Start(cat, s0) && s0.policy == p && LeadsCurrent(cat, id, s0, s) && FullyRenewed(s, id)
        && LeadsCurrent(cat, id, s, s') && s'.now == s.now + 1 && RefusesStored(s', v, id);
      var a: seq<Step> :| AllCurrent(cat, id, s0, a) && Exec(REAL, cat, s0, a) == Some(s);
      var b: seq<Step> :| AllCurrent(cat, id, s, b) && Exec(REAL, cat, s, b) == Some(s');
      NobodyRenews(cat, id, s0, a);
      NobodyRenews(cat, id, s, b);
      assert false;
    }
  }

  /**
   Unless tokens are never renewed, verifications that overlap, all of them on the current copy, can
   set a token stored for the full timeout back so far that the next tick finds it expired; if
   they are never renewed this happens only where tokens live for no time.
   */
  lemma CanTurnAwayIff(p: Policy)
    ensures CanTurnAway(p) <==> 0 < p.maxRefresh || p.timeout <= 0
  {
    if p.timeout <= 0 {
      NoTimeTurnsAway(p);
    } else if 0 < p.maxRefresh {
      var s0, a := FirstOfTwo(p);
      var s := ThirdRenews(p, s0, a);
      var s' := SecondWritesLate(s, p.timeout);
    } else {
      NotTurnedAway(p);
    }
  }

  // ---- Exactly when ----

  /** What the step writes for the user, or `None` inside if it removes the token. */
  function Written(s: State, id: int, st: Step): Option<Option<Token>> {
    match st
    case PutToken(_, i, token) => if i == id then Some(Some(token)) else None
    case RemoveToken(_, i) => if i == id then Some(None) else None
    case VerifyWrite(v, _) =>
      if !HeldBy(s, v, id) || s.verifiers[v].Reading? then None
      else if s.verifiers[v].Renewing? then Some(Some(s.verifiers[v].token))
      else Some(None)
    case _ => None
  }

  ghost function LastWritten(cat: Catalog, id: int, s: State, steps: seq<Step>): Option<Option<Token>>
    decreases steps
  {
    if steps == [] || !Enabled(REAL, cat, s, steps[0]) then None
    else
      var later := LastWritten(cat, id, After(REAL, cat, s, steps[0]), steps[1..]);
      if later.Some? then later else Written(s, id, steps[0])
  }

  function Stored(s: State, id: int): Option<Token> {
    if id in s.world.tokens then Some(s.world.tokens[id]) else None
  }

  /** Verification `v` neither writes nor ends. */
  function Waits(v: nat): Filter {
    (st: Step) => st != VerifyEnd(v) && (st.VerifyWrite? ==> st.verifier != v)
  }

  lemma StoredAfter(cat: Catalog, id: int, v: nat, s: State, st: Step)
    requires Enabled(REAL, cat, s, st) && Waits(v)(st) && v in s.verifiers && s.verifiers[v].Renewing?
    ensures var s' := After(REAL, cat, s, st); var written := Written(s, id, st);
            Stored(s', id) == (if written.Some? then written.value else Stored(s, id))
            && v in s'.verifiers && s'.verifiers[v] == s.verifiers[v] && s'.policy == s.policy
  {
  }

  lemma {:induction false} StoredIsLastWritten(cat: Catalog, id: int, v: nat, s: State, steps: seq<Step>)
    requires Exec(REAL, cat, s, steps).Some? && AllPass(Waits(v), steps)
    requires v in s.verifiers && s.verifiers[v].Renewing?
    ensures var s' := Exec(REAL, cat, s, steps).value; var last := LastWritten(cat, id, s, steps);
            Stored(s', id) == (if last.Some? then last.value else Stored(s, id))
            && v in s'.verifiers && s'.verifiers[v] == s.verifiers[v] && s'.policy == s.policy
    decreases steps
  {
    if steps != [] {
      assert Waits(v)(steps[0]);
      assert AllPass(Waits(v), steps[1..]);
      StoredAfter(cat, id, v, s, steps[0]);
      StoredIsLastWritten(cat, id, v, After(REAL, cat, s, steps[0]), steps[1..]);
    }
  }

  /**
   A verification that has decided to renew the current copy will set the stored expiry back
   exactly if the last write of the token since its decision left an expiry later than its own,
   and so never if nothing was written in between; and by no more than the time since then.
   */
  lemma SetsBackIff(cat: Catalog, s: State, v: nat, id: int, steps: seq<Step>)
    requires Current(s, id, VerifyDecide(v)) && HeldBy(s, v, id) && s.verifiers[v].Reading?
    requires 0 <= s.verifiers[v].token.expire - s.now < s.policy.maxRefresh
    requires id in s.world.tokens && s.world.tokens[id].expire <= s.now + s.policy.timeout
    requires Exec(REAL, cat, After(REAL, cat, s, VerifyDecide(v)), steps).Some? && AllPass(Waits(v), steps)
    ensures var s' := Exec(REAL, cat, After(REAL, cat, s, VerifyDecide(v)), steps).value;
            var last := LastWritten(cat, id, After(REAL, cat, s, VerifyDecide(v)), steps);
            && Pending(s', v, id) && DecidedAt(s', v) == s.now
            && ((Stored(s', id).Some? && s'.verifiers[v].token.expire < Stored(s', id).value.expire)
                <==> (last.Some? && last.value.Some? && s.now + s.policy.timeout < last.value.value.expire))
            && (Stored(s', id).Some? && Stored(s', id).value.expire <= s'.now + s'.policy.timeout ==>
                  Stored(s', id).value.expire - s'.verifiers[v].token.expire <= s'.now - s.now)
  {
    StoredIsLastWritten(cat, id, v, After(REAL, cat, s, VerifyDecide(v)), steps);
  }
}
