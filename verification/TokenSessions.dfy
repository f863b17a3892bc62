/**
 Login tokens over time, for one user at a time: login, verification with sliding refresh,
 expiry and logout, each complete before the next, with the cache agreeing with the store. A user's
 token text is a function of the id, so every login of one user yields the same text.
 RefreshRace is about verifications that overlap.
 */
module TokenSessions {
  import Coherence
  import opened Rows
  import opened Wrappers

  datatype Outcome = Unknown | Invalid | Expired | Accepted(token: Token) | LoggedIn(token: Token) | Gone | Failed

  /** Whether Redis answers a read, takes a write or removal, and publishes. */
  datatype Redis = Redis(canRead: bool, canWrite: bool, canPublish: bool)

  const FINE := Redis(true, true, true)

  datatype Event =
    | Login(now: int, multi: bool)
    | Verify(now: int, presented: string)
    | Logout(now: int)

  function Renewed(p: Policy, secret: string, now: int): Token {
    Token(secret, now + p.timeout)
  }

  /** What the store holds for the user after an event, and what the caller is told. */
  function Next(p: Policy, secret: string, stored: Option<Token>, e: Event): (Option<Token>, Outcome) {
    match e
    case Login(now, multi) =>
      if multi && stored.Some? then (stored, LoggedIn(stored.value))
      else (Some(Renewed(p, secret, now)), LoggedIn(Renewed(p, secret, now)))
    case Logout(_) => (None, Gone)
    case Verify(now, presented) =>
      if stored.None? then (None, Unknown)
      else if stored.value.secret != presented then (stored, Invalid)
      else if stored.value.expire < now then (None, Expired)
      else if stored.value.expire - now < p.maxRefresh then
        (Some(Renewed(p, presented, now)), Accepted(Renewed(p, presented, now)))
      else (stored, Accepted(stored.value))
  }

  /** The stored token is the one presented, and close enough to its expiry to be renewed. */
  predicate Renews(p: Policy, stored: Option<Token>, now: int, presented: string) {
    stored.Some? && stored.value.secret == presented && 0 <= stored.value.expire - now < p.maxRefresh
  }

  class Tokens {
    const policy: Policy
    const secretOf: int -> string
    var hash: map<int, Token>
    /** The users whose token was published as changed, in order. */
    var published: seq<int>

    constructor (policy: Policy, secretOf: int -> string)
      ensures this.policy == policy && this.secretOf == secretOf && hash == map[] && published == []
    {
      this.policy := policy;
      this.secretOf := secretOf;
      hash, published := map[], [];
    }

    function Stored(id: int): Option<Token>
      reads this
    {
      if id in hash then Some(hash[id]) else None
    }

    /** A write whose publication fails is done all the same, and reported as failed. */
    method Write(id: int, token: Token, redis: Redis) returns (ok: bool)
      modifies this
      ensures hash == if redis.canWrite then old(hash)[id := token] else old(hash)
      ensures ok <==> redis.canWrite && redis.canPublish
      ensures published == if ok then old(published) + [id] else old(published)
    {
      if !redis.canWrite {
        return false;
      }
      hash := hash[id := token];
      if redis.canPublish {
        published := published + [id];
      }
      return redis.canPublish;
    }

    method RemoveTokenData(id: int, redis: Redis) returns (ok: bool)
      modifies this
      ensures hash == if redis.canWrite then old(hash) - {id} else old(hash)
      ensures ok <==> redis.canWrite && redis.canPublish
      ensures published == if ok then old(published) + [id] else old(published)
    {
      if !redis.canWrite {
        return false;
      }
      hash := hash - {id};
      if redis.canPublish {
        published := published + [id];
      }
      return redis.canPublish;
    }

    /** A stored token that cannot be read counts as none: the login then makes a new one. */
    method AfterLogin(id: int, now: int, multi: bool, redis: Redis) returns (r: Outcome)
      modifies this
      ensures redis == FINE ==> (Stored(id), r) == Next(policy, secretOf(id), old(Stored(id)), Login(now, multi))
      ensures var next := Next(policy, secretOf(id), if redis.canRead then old(Stored(id)) else None, Login(now, multi));
              var keeps := multi && redis.canRead && id in old(hash);
              && Stored(id) == (if keeps || redis.canWrite then next.0 else old(Stored(id)))
              && r == (if keeps || (redis.canWrite && redis.canPublish) then next.1 else Failed)
              && published == if !keeps && redis.canWrite && redis.canPublish then old(published) + [id] else old(published)
      ensures redis == FINE && multi && id in old(hash) ==> r == LoggedIn(old(hash)[id]) && hash == old(hash)
      ensures redis == FINE && !(multi && id in old(hash)) ==>
                var token := Token(secretOf(id), now + policy.timeout); r == LoggedIn(token) && hash == old(hash)[id := token]
      ensures forall other | other != id :: Stored(other) == old(Stored(other))
    {
      if multi && redis.canRead && id in hash {
        return LoggedIn(hash[id]);
      }
      var token := Renewed(policy, secretOf(id), now);
      var ok := Write(id, token, redis);
      return if ok then LoggedIn(token) else Failed;
    }

    /**
     A verification that finds no cached copy and cannot read, or cannot write what it has to, fails
     without a verdict; a `hit` in the cache needs no reading.
     */
    method CacheVerify(id: int, now: int, presented: string, hit: bool, redis: Redis) returns (r: Outcome)
      modifies this
      ensures redis == FINE ==> (Stored(id), r) == Next(policy, secretOf(id), old(Stored(id)), Verify(now, presented))
      ensures var next := Next(policy, secretOf(id), old(Stored(id)), Verify(now, presented));
              if !hit && !redis.canRead then r == Failed && Stored(id) == old(Stored(id))
              else if next.0 == old(Stored(id)) && !Renews(policy, old(Stored(id)), now, presented)
              then r == next.1 && Stored(id) == old(Stored(id))
              else r == (if redis.canWrite && redis.canPublish then next.1 else Failed)
                   && Stored(id) == if redis.canWrite then next.0 else old(Stored(id))
      ensures redis == FINE ==>
                (r.Accepted? <==> id in old(hash) && old(hash)[id].secret == presented && now <= old(hash)[id].expire)
      ensures id in old(hash) && old(hash)[id].secret != presented ==>
                r == (if hit || redis.canRead then Invalid else Failed) && hash == old(hash) && published == old(published)
      ensures var changes := (hit || redis.canRead) && id in old(hash) && old(hash)[id].secret == presented
                             && (old(hash)[id].expire < now || old(hash)[id].expire - now < policy.maxRefresh);
              published == if changes && redis.canWrite && redis.canPublish then old(published) + [id] else old(published)
      ensures forall other | other != id :: Stored(other) == old(Stored(other))
    {
      if !hit && !redis.canRead {
        return Failed;
      }
      if id !in hash {
        return Unknown;
      }
      var token := hash[id];
      if token.secret != presented {
        return Invalid;
      }
      if token.expire < now {
        var ok := RemoveTokenData(id, redis);
        return if ok then Expired else Failed;
      }
      if token.expire - now < policy.maxRefresh {
        token := token.(expire := now + policy.timeout);
        var ok := Write(id, token, redis);
        return if ok then Accepted(token) else Failed;
      }
      return Accepted(token);
    }

    method Logout(id: int, redis: Redis) returns (ok: bool)
      modifies this
      ensures ok <==> redis.canWrite && redis.canPublish
      ensures published == if ok then old(published) + [id] else old(published)
      ensures hash == if redis.canWrite then old(hash) - {id} else old(hash)
      ensures redis.canWrite ==>
                forall now :: (Stored(id), Gone) == Next(policy, secretOf(id), old(Stored(id)), Event.Logout(now))
      ensures !redis.canWrite ==> Stored(id) == old(Stored(id))
      ensures forall other | other != id :: Stored(other) == old(Stored(other))
    {
      ok := RemoveTokenData(id, redis);
    }
  }

  /** The system's verification, undisturbed: what it decides about the stored token is what it makes of it. */
  lemma DecidedIsNext(p: Policy, secret: string, id: int, now: int, token: Token)
    ensures var next := Next(p, secret, Some(token), Verify(now, token.secret));
            match Coherence.Decided(p, now, id, token)
            case None => next == (Some(token), Accepted(token))
            case Some(Expiring(_)) => next == (None, Expired)
            case Some(Renewing(_, renewed)) => next == (Some(renewed), Accepted(renewed))
            case Some(Reading(_, _)) => false
  {
  }

  /** The verdict and what becomes of the stored token, whatever is presented. */
  lemma VerdictIff(p: Policy, secret: string, stored: Option<Token>, now: int, presented: string)
    ensures var (after, told) := Next(p, secret, stored, Verify(now, presented));
            && (told == Unknown <==> stored.None?)
            && (told == Invalid <==> stored.Some? && stored.value.secret != presented)
            && (told == Expired <==> stored.Some? && stored.value.secret == presented && stored.value.expire < now)
            && (told.Accepted? <==> stored.Some? && stored.value.secret == presented && now <= stored.value.expire)
            && (told == Unknown || told == Invalid ==> after == stored)
            && (told == Expired ==> after.None?)
            && (told.Accepted? ==>
                  && after == Some(told.token) && told.token.secret == presented
                  && told.token.expire == if stored.value.expire - now < p.maxRefresh then now + p.timeout
                                          else stored.value.expire)
  {
  }

  /** A login stores and returns a token for the full timeout, unless several are allowed and one is stored. */
  lemma LoginAndLogout(p: Policy, secret: string, stored: Option<Token>, now: int, multi: bool)
    ensures var made := Token(secret, now + p.timeout);
            Next(p, secret, stored, Login(now, multi))
            == if multi && stored.Some? then (stored, LoggedIn(stored.value)) else (Some(made), LoggedIn(made))
    ensures Next(p, secret, stored, Logout(now)).0 == None
  {
  }

  // ---- Runs ----

  function Run(p: Policy, secret: string, stored: Option<Token>, events: seq<Event>): Option<Token>
    decreases events
  {
    if events == [] then stored
    else Run(p, secret, Next(p, secret, stored, events[0]).0, events[1..])
  }

  /** Times do not go back, starting from `from`. */
  predicate Ordered(from: int, events: seq<Event>)
    decreases events
  {
    events == [] || (from <= events[0].now && Ordered(events[0].now, events[1..]))
  }

  function LastTime(from: int, events: seq<Event>): int
    decreases events
  {
    if events == [] then from else LastTime(events[0].now, events[1..])
  }

  /** The store holds only this user's token, and no expiry later than one made at `now`. */
  predicate Bounded(p: Policy, secret: string, stored: Option<Token>, now: int) {
    stored.Some? ==> stored.value.secret == secret && stored.value.expire <= now + p.timeout
  }

  /** Over every run from an empty store the expiry stays within `timeout` of the clock. */
  lemma {:induction false} ExpiryStaysBounded(p: Policy, secret: string, stored: Option<Token>, from: int,
                                              events: seq<Event>)
    requires Bounded(p, secret, stored, from) && Ordered(from, events)
    ensures Bounded(p, secret, Run(p, secret, stored, events), LastTime(from, events))
    decreases events
  {
    if events != [] {
      ExpiryStaysBounded(p, secret, Next(p, secret, stored, events[0]).0, events[0].now, events[1..]);
    }
  }

  /** Hence a verification that nothing overlaps never brings a stored expiry forward, whatever the policy. */
  lemma RefreshNeverShortens(p: Policy, secret: string, from: int, events: seq<Event>, e: Event)
    requires Ordered(from, events) && LastTime(from, events) <= e.now && e.Verify?
    ensures var stored := Run(p, secret, None, events);
            var after := Next(p, secret, stored, e);
            after.1.Accepted? ==> stored.Some? && after.0 == Some(after.1.token) && stored.value.expire <= after.1.token.expire
  {
    ExpiryStaysBounded(p, secret, None, from, events);
  }

  /** The token texts that logins have handed out. */
  function HandedOut(p: Policy, secret: string, stored: Option<Token>, events: seq<Event>): set<string>
    decreases events
  {
    if events == [] then {}
    else
      var (after, told) := Next(p, secret, stored, events[0]);
      (if told.LoggedIn? then {told.token.secret} else {}) + HandedOut(p, secret, after, events[1..])
  }

  lemma {:induction false} StoredWasHandedOut(p: Policy, secret: string, stored: Option<Token>, events: seq<Event>)
    ensures var end := Run(p, secret, stored, events);
            end.Some? ==> end.value.secret in HandedOut(p, secret, stored, events)
                          || (stored.Some? && end.value.secret == stored.value.secret)
    decreases events
  {
    if events != [] {
      StoredWasHandedOut(p, secret, Next(p, secret, stored, events[0]).0, events[1..]);
    }
  }

  /** A token text that no login has handed out is never accepted, over any run from an empty store. */
  lemma OnlyHandedOutIsAccepted(p: Policy, secret: string, events: seq<Event>, now: int, presented: string)
    requires Next(p, secret, Run(p, secret, None, events), Verify(now, presented)).1.Accepted?
    ensures presented in HandedOut(p, secret, None, events)
    ensures exists i | 0 <= i < |events| :: events[i].Login?
  {
    StoredWasHandedOut(p, secret, None, events);
    if forall i | 0 <= i < |events| :: !events[i].Login? {
      LogoutRefuses(p, secret, events);
    }
  }

  predicate NoLogout(events: seq<Event>) {
    forall e | e in events :: !e.Logout?
  }

  /** The client presents its token at gaps of at most `maxRefresh`, the last time at `last`. */
  predicate KeepsUp(p: Policy, secret: string, last: int, events: seq<Event>)
    decreases events
  {
    events == []
    || (if events[0] == Verify(events[0].now, secret)
        then events[0].now <= last + p.maxRefresh && KeepsUp(p, secret, events[0].now, events[1..])
        else KeepsUp(p, secret, last, events[1..]))
  }

  /** Every time the client presents its token it is accepted. */
  predicate AlwaysAccepted(p: Policy, secret: string, stored: Option<Token>, events: seq<Event>)
    decreases events
  {
    events == []
    || ((events[0] == Verify(events[0].now, secret) ==> Next(p, secret, stored, events[0]).1.Accepted?)
        && AlwaysAccepted(p, secret, Next(p, secret, stored, events[0]).0, events[1..]))
  }

  lemma {:induction false} KeepingUpIsAccepted(p: Policy, secret: string, stored: Option<Token>, last: int,
                                               from: int, events: seq<Event>)
    requires p.maxRefresh <= p.timeout && last <= from
    requires stored.Some? && stored.value.secret == secret && last + p.maxRefresh <= stored.value.expire
    requires Ordered(from, events) && NoLogout(events) && KeepsUp(p, secret, last, events)
    ensures AlwaysAccepted(p, secret, stored, events)
    decreases events
  {
    if events != [] {
      var e := events[0];
      assert e in events;
      assert forall x | x in events[1..] :: x in events;
      var stored' := Next(p, secret, stored, e).0;
      if e == Verify(e.now, secret) {
        KeepingUpIsAccepted(p, secret, stored', e.now, e.now, events[1..]);
      } else {
        KeepingUpIsAccepted(p, secret, stored', last, e.now, events[1..]);
      }
    }
  }

  /**
   After a successful verification, a client whose verifications are never more than `maxRefresh`
   apart is never turned away, as long as logins and verifications are complete one by one.
   */
  lemma SlidingExpiry(p: Policy, secret: string, stored: Option<Token>, now: int, events: seq<Event>)
    requires p.maxRefresh <= p.timeout
    requires Next(p, secret, stored, Verify(now, secret)).1.Accepted?
    requires Ordered(now, events) && NoLogout(events) && KeepsUp(p, secret, now, events)
    ensures AlwaysAccepted(p, secret, Next(p, secret, stored, Verify(now, secret)).0, events)
  {
    KeepingUpIsAccepted(p, secret, Next(p, secret, stored, Verify(now, secret)).0, now, now, events);
  }

  /** The guarantee for every client of a policy, as SlidingExpiry states it. */
  ghost predicate Slides(p: Policy, secret: string) {
    forall stored: Option<Token>, now: int, events: seq<Event> ::
      Next(p, secret, stored, Verify(now, secret)).1.Accepted?
      && Ordered(now, events) && NoLogout(events) && KeepsUp(p, secret, now, events)
      ==> AlwaysAccepted(p, secret, Next(p, secret, stored, Verify(now, secret)).0, events)
  }

  lemma {:induction false} NeverComesBack(p: Policy, secret: string, stored: Option<Token>, last: int, from: int,
                                           events: seq<Event>)
    requires p.maxRefresh < 0 && last <= from && Ordered(from, events) && KeepsUp(p, secret, last, events)
    ensures AlwaysAccepted(p, secret, stored, events)
    decreases events
  {
    if events != [] {
      NeverComesBack(p, secret, Next(p, secret, stored, events[0]).0, last, events[0].now, events[1..]);
    }
  }

  /** A login whose token does not live until the end of the window, and the client one moment later at most. */
  lemma WindowTooLong(p: Policy, secret: string)
    requires p.timeout < p.maxRefresh && 0 <= p.maxRefresh
    ensures !Slides(p, secret)
  {
    var stored := Some(Token(secret, p.maxRefresh));
    var late := if p.timeout < 0 then 0 else p.timeout + 1;
    var login, verify := Login(0, false), Verify(late, secret);
    var events := [login, verify];
    assert Next(p, secret, stored, Verify(0, secret)) == (stored, Accepted(stored.value));
    assert events[1..] == [verify] && [verify][1..] == [];
    assert KeepsUp(p, secret, 0, [verify]) && Ordered(0, [verify]);
    assert Ordered(0, events) && NoLogout(events) && KeepsUp(p, secret, 0, events);
    assert Next(p, secret, stored, login).0 == Some(Token(secret, p.timeout));
    assert !AlwaysAccepted(p, secret, Some(Token(secret, p.timeout)), [verify]);
    assert !AlwaysAccepted(p, secret, stored, events);
  }

  /**
   One at a time, the guarantee holds exactly if tokens are renewed for at least the refresh window,
   or the window is negative, so that no client can keep up.
   */
  lemma SlidesIff(p: Policy, secret: string)
    ensures Slides(p, secret) <==> p.maxRefresh <= p.timeout || p.maxRefresh < 0
  {
    if p.maxRefresh <= p.timeout || p.maxRefresh < 0 {
      forall stored: Option<Token>, now: int, events: seq<Event> |
        Next(p, secret, stored, Verify(now, secret)).1.Accepted?
        && Ordered(now, events) && NoLogout(events) && KeepsUp(p, secret, now, events)
        ensures AlwaysAccepted(p, secret, Next(p, secret, stored, Verify(now, secret)).0, events)
      {
        if p.maxRefresh < 0 {
          NeverComesBack(p, secret, Next(p, secret, stored, Verify(now, secret)).0, now, now, events);
        } else {
          SlidingExpiry(p, secret, stored, now, events);
        }
      }
    } else {
      WindowTooLong(p, secret);
    }
  }

  /** The gap allowed is the largest: one tick more and a reachable client is turned away. */
  lemma GapIsTight(p: Policy, secret: string)
    requires 0 <= p.maxRefresh <= p.timeout
    ensures var t := p.timeout - p.maxRefresh;
            var stored := Run(p, secret, None, [Login(0, false), Verify(t, secret)]);
            stored == Some(Token(secret, p.timeout))
            && Next(p, secret, stored, Verify(t + p.maxRefresh + 1, secret)).1 == Expired
  {
    var t := p.timeout - p.maxRefresh;
    var events := [Login(0, false), Verify(t, secret)];
    assert events[1..] == [Verify(t, secret)] && events[1..][1..] == [];
    assert Run(p, secret, Some(Token(secret, p.timeout)), events[1..]) == Some(Token(secret, p.timeout));
  }

  /** No login, and no verification that succeeds. */
  predicate Idle(p: Policy, secret: string, stored: Option<Token>, events: seq<Event>)
    decreases events
  {
    events == []
    || (!events[0].Login? && !Next(p, secret, stored, events[0]).1.Accepted?
        && Idle(p, secret, Next(p, secret, stored, events[0]).0, events[1..]))
  }

  lemma {:induction false} IdleKeepsBound(p: Policy, secret: string, stored: Option<Token>, at: int, events: seq<Event>)
    requires Bounded(p, secret, stored, at) && Idle(p, secret, stored, events)
    ensures Bounded(p, secret, Run(p, secret, stored, events), at)
    decreases events
  {
    if events != [] {
      IdleKeepsBound(p, secret, Next(p, secret, stored, events[0]).0, at, events[1..]);
    }
  }

  /** After more than `timeout` without a login or a successful verification, none succeeds. */
  lemma IdleExpires(p: Policy, secret: string, from: int, events: seq<Event>, idle: seq<Event>, now: int,
                    presented: string)
    requires Ordered(from, events)
    requires Idle(p, secret, Run(p, secret, None, events), idle)
    requires LastTime(from, events) + p.timeout < now
    ensures var stored := Run(p, secret, Run(p, secret, None, events), idle);
            !Next(p, secret, stored, Verify(now, presented)).1.Accepted?
  {
    ExpiryStaysBounded(p, secret, None, from, events);
    IdleKeepsBound(p, secret, Run(p, secret, None, events), LastTime(from, events), idle);
  }

  /**
   The token a login returns is accepted at once, except that a repeated login where several
   are allowed hands back the stored token as it is, expired or not.
   */
  lemma LoginThenVerifyIff(p: Policy, secret: string, stored: Option<Token>, now: int, multi: bool)
    requires p.timeout >= 0
    ensures var after := Next(p, secret, stored, Login(now, multi));
            Next(p, secret, after.0, Verify(now, after.1.token.secret)).1.Accepted?
            <==> !(multi && stored.Some? && stored.value.expire < now)
  {
  }

  /** A logout leaves nothing to accept until the next login. */
  lemma {:induction false} LogoutRefuses(p: Policy, secret: string, events: seq<Event>)
    requires forall e | e in events :: !e.Login?
    ensures Run(p, secret, None, events) == None
    ensures AlwaysRefused(p, secret, None, events)
    decreases events
  {
    if events != [] {
      assert events[0] in events;
      assert forall x | x in events[1..] :: x in events;
      LogoutRefuses(p, secret, events[1..]);
    }
  }

  predicate AlwaysRefused(p: Policy, secret: string, stored: Option<Token>, events: seq<Event>)
    decreases events
  {
    events == []
    || (!Next(p, secret, stored, events[0]).1.Accepted?
        && AlwaysRefused(p, secret, Next(p, secret, stored, events[0]).0, events[1..]))
  }
}
