/** The expiring blacklist decides exactly like a permanent revocation set, in every run. */
module AuthRevocation {
  import opened Prelude
  import opened Cache
  import opened AuthModel
  import opened AuthInvariant

  /**
   The reference machine: the jtis a request revokes for ever. It reads neither
   the blacklist nor the expiry of a session, and forgets nothing.
   */
  ghost function Requested(w: World, e: Event): set<string> {
    match e
    case DoRegister(_, _, _, _) => {}
    case DoLogin(_, _, _, _) => {}
    case DoRefresh(token, _, at) =>
      if RefreshError(w, token, at.check).Some? then {}
      else set j | j in w.sessions && w.sessions[j].id == w.tokens[token].sessionId
    case DoRevoke(c, caller, _) => if c.jti in w.issued && w.issued[c.jti].sub == caller then {c.jti} else {}
    case DoRevokeAll(user, _) => set j | j in w.issued && w.issued[j].sub == user
    case OtherTraffic(_, _, _) => {}
  }

  /** Everything revoked in a run that starts in `w` with `revoked` already revoked. */
  ghost function RevokedForEver(cfg: Config, w: World, revoked: set<string>, es: seq<Event>): set<string>
    decreases |es|
  {
    if es == [] then revoked
    else RevokedForEver(cfg, Step(cfg, w, es[0]), revoked + Requested(w, es[0]), es[1..])
  }

  /** How the session table, with its rows that merely expired, relates to the permanent set. */
  ghost predicate Linked(w: World, revoked: set<string>) {
    && Inv(w)
    && revoked <= w.issued.Keys
    && (forall j :: j in w.sessions && w.sessions[j].isRevoked ==> j in revoked)
    && (forall j :: j in revoked ==> w.sessions[j].isRevoked || w.issued[j].exp * 1000 <= w.now)
  }

  lemma RetireLinked(w: World, token: string, at: RefreshTimes, revoked: set<string>)
    requires Linked(w, revoked) && token in w.tokens && w.now <= at.check && RefreshOrdered(at)
    ensures Linked(Retire(w, token, at),
              revoked + set j | j in w.sessions && w.sessions[j].id == w.tokens[token].sessionId)
  {
    RetireKeeps(w, token, at);
    var rec := w.tokens[token];
    var stale := RefreshedJtis(w, rec, at.active);
    forall j | j in w.sessions && w.sessions[j].id == rec.sessionId
      ensures j in stale || w.sessions[j].isRevoked || w.issued[j].exp * 1000 <= at.open.session
    {
      assert w.sessions[j].userId == rec.userId;
    }
  }

  lemma OpenLinked(cfg: Config, w: World, userId: string, ids: FreshIds, at: OpenTimes, revoked: set<string>)
    requires Linked(w, revoked) && FreshFor(w, ids) && w.now <= at.session && OpenOrdered(at)
    ensures Linked(Open(cfg, w, userId, ids, at), revoked)
  {
    OpenKeeps(cfg, w, userId, ids, at);
  }

  lemma RefreshLinked(cfg: Config, w: World, token: string, ids: FreshIds, at: RefreshTimes, revoked: set<string>)
    requires Linked(w, revoked) && Enabled(w, DoRefresh(token, ids, at))
    ensures Linked(Refresh(cfg, w, token, ids, at).0, revoked + Requested(w, DoRefresh(token, ids, at)))
  {
    if RefreshError(w, token, at.check).None? {
      RetireLinked(w, token, at, revoked);
      var v := Retire(w, token, at);
      if w.tokens[token].userId in w.users.Values {
        assert FreshFor(v, ids);
        OpenLinked(cfg, v, w.tokens[token].userId, ids, at.open,
          revoked + set j | j in w.sessions && w.sessions[j].id == w.tokens[token].sessionId);
      }
    } else {
      OthersKeep(w, Refresh(cfg, w, token, ids, at).0);
    }
  }

  lemma RevokeLinked(w: World, c: Claims, caller: string, at: RevokeTimes, revoked: set<string>)
    requires Linked(w, revoked) && Enabled(w, DoRevoke(c, caller, at))
    ensures Linked(Revoke(w, c, caller, at).0, revoked + Requested(w, DoRevoke(c, caller, at)))
  {
    RevokeKeeps(w, c, caller, at);
  }

  lemma RevokeAllLinked(w: World, user: string, at: RevokeAllTimes, revoked: set<string>)
    requires Linked(w, revoked) && Enabled(w, DoRevokeAll(user, at))
    ensures Linked(RevokeAll(w, user, at).0, revoked + Requested(w, DoRevokeAll(user, at)))
  {
    RevokeAllKeeps(w, user, at);
  }

  lemma RegisterLinked(cfg: Config, w: World, email: string, userId: string, ids: FreshIds, at: OpenTimes, revoked: set<string>)
    requires Linked(w, revoked) && FreshFor(w, ids) && w.now <= at.session && OpenOrdered(at)
    ensures Linked(Register(cfg, w, email, userId, ids, at).0, revoked)
  {
    if email in w.users {
      OthersKeep(w, w.(now := at.session));
    } else {
      OthersKeep(w, w.(users := w.users[email := userId]));
      OpenLinked(cfg, w.(users := w.users[email := userId]), userId, ids, at, revoked);
    }
  }

  lemma LoginLinked(cfg: Config, w: World, email: string, ok: bool, ids: FreshIds, at: OpenTimes, revoked: set<string>)
    requires Linked(w, revoked) && FreshFor(w, ids) && w.now <= at.session && OpenOrdered(at)
    ensures Linked(Login(cfg, w, email, ok, ids, at).0, revoked)
  {
    if email in w.users && ok {
      OpenLinked(cfg, w, w.users[email], ids, at, revoked);
    } else {
      OthersKeep(w, w.(now := at.session));
    }
  }

  lemma StepLinked(cfg: Config, w: World, e: Event, revoked: set<string>)
    requires Linked(w, revoked) && Enabled(w, e)
    ensures Linked(Step(cfg, w, e), revoked + Requested(w, e))
  {
    match e
    case DoRegister(email, userId, ids, at) => RegisterLinked(cfg, w, email, userId, ids, at, revoked);
    case DoLogin(email, ok, ids, at) => LoginLinked(cfg, w, email, ok, ids, at, revoked);
    case DoRefresh(token, ids, at) => RefreshLinked(cfg, w, token, ids, at, revoked);
    case DoRevoke(c, caller, at) => RevokeLinked(w, c, caller, at, revoked);
    case DoRevokeAll(user, at) => RevokeAllLinked(w, user, at, revoked);
    case OtherTraffic(key, entry, t) => TrafficKeeps(cfg, w, key, entry, t);
  }

  lemma {:induction false} RunLinked(cfg: Config, w: World, revoked: set<string>, es: seq<Event>)
    requires Linked(w, revoked) && CanRun(cfg, w, es)
    ensures Linked(Run(cfg, w, es), RevokedForEver(cfg, w, revoked, es))
    ensures revoked <= RevokedForEver(cfg, w, revoked, es)
    ensures w.now <= Run(cfg, w, es).now
    decreases |es|
  {
    if es != [] {
      StepKeeps(cfg, w, es[0]);
      StepLinked(cfg, w, es[0], revoked);
      RunLinked(cfg, Step(cfg, w, es[0]), revoked + Requested(w, es[0]), es[1..]);
    }
  }

  /**
   What the middleware decides about an issued token: a token nobody revoked is
   accepted exactly while unexpired, and a revoked one is rejected at every
   lookup that comes before the token's expiry.
   */
  ghost predicate DecidesLike(w: World, c: Claims, revoked: bool, verified: int, lookup: int) {
    && (!revoked ==> (Accepts(w.cache, c, verified, lookup) <==> Unexpired(c, verified)))
    && (revoked && lookup < c.exp * 1000 ==> !Accepts(w.cache, c, verified, lookup))
  }

  lemma Decision(w: World, revoked: set<string>, j: string, verified: int, lookup: int)
    requires Linked(w, revoked) && j in w.issued && verified <= lookup && w.now <= lookup
    ensures DecidesLike(w, w.issued[j], j in revoked, verified, lookup)
  {
    var c := w.issued[j];
    if j in w.cache.blacklist {
      assert Outlives(w.cache.blacklist[j], c);
    }
  }

  lemma UnexpiredIsBeforeExpiry(c: Claims, t: int)
    ensures Unexpired(c, t) <==> t < c.exp * 1000
  {
  }

  /**
   Main result. After any run, and at any later instant, the middleware accepts
   an issued token exactly when the token is unexpired and no request of the
   run revoked it, although blacklist entries vanish and expired sessions are
   never blacklisted.
   */
  lemma ForgetfulDecidesLikePermanent(cfg: Config, es: seq<Event>, j: string, t: int)
    requires CanRun(cfg, INITIAL, es) && j in Run(cfg, INITIAL, es).issued && Run(cfg, INITIAL, es).now <= t
    ensures var w := Run(cfg, INITIAL, es);
      Accepts(w.cache, w.issued[j], t, t) <==>
      Unexpired(w.issued[j], t) && j !in RevokedForEver(cfg, INITIAL, {}, es)
  {
    RunLinked(cfg, INITIAL, {}, es);
    var w := Run(cfg, INITIAL, es);
    Decision(w, RevokedForEver(cfg, INITIAL, {}, es), j, t, t);
    UnexpiredIsBeforeExpiry(w.issued[j], t);
  }

  /** The same when time passes between verification and lookup. */
  lemma ForgetfulDecidesLikePermanentInSteps(cfg: Config, es: seq<Event>, j: string, verified: int, lookup: int)
    requires CanRun(cfg, INITIAL, es) && j in Run(cfg, INITIAL, es).issued
    requires verified <= lookup && Run(cfg, INITIAL, es).now <= lookup
    ensures var w := Run(cfg, INITIAL, es);
      DecidesLike(w, w.issued[j], j in RevokedForEver(cfg, INITIAL, {}, es), verified, lookup)
  {
    RunLinked(cfg, INITIAL, {}, es);
    Decision(Run(cfg, INITIAL, es), RevokedForEver(cfg, INITIAL, {}, es), j, verified, lookup);
  }

  /**
   The bound on the lookup is needed: a token of one second, signed at 0 and
   revoked at 0, is verified at 999 ms and let through by a lookup at 1000 ms,
   when its entry has just gone.
   */
  lemma LookupAfterExpiryAccepts()
    ensures var cfg := Config(1, 10);
      var c := Claims("u", "j", 0, 1);
      var login := DoRegister("a", "u", FreshIds("j", "s", "r"), OpenTimes(0, 0, 0));
      var revoke := DoRevoke(c, "u", RevokeTimes(0, 0, 0));
      var w := Step(cfg, INITIAL, login);
      && Enabled(INITIAL, login) && Enabled(w, revoke) && w.issued["j"] == c
      && Requested(w, revoke) == {"j"}
      && Accepts(Step(cfg, w, revoke).cache, c, 999, 1000)
  {
    BlacklistNothing(EMPTY, Always(0));
    BlacklistExtend(EMPTY, map[], "j", 1, Always(0));
  }

  ghost predicate TokensGrown(ts: map<string, RefreshToken>, us: map<string, RefreshToken>) {
    forall r :: r in ts ==>
      && r in us
      && us[r].userId == ts[r].userId
      && us[r].sessionId == ts[r].sessionId
      && (ts[r].isRevoked ==> us[r].isRevoked)
  }

  /** What a run never takes back: signed tokens, refresh tokens with their owner, and revocations. */
  ghost predicate Grown(w: World, v: World) {
    && (forall j :: j in w.issued ==> j in v.issued && v.issued[j] == w.issued[j])
    && TokensGrown(w.tokens, v.tokens)
  }

  lemma TokensGrow(ts: map<string, RefreshToken>, rs: set<string>)
    ensures TokensGrown(ts, RevokeTokens(ts, rs))
  {
  }

  lemma RefreshGrows(cfg: Config, w: World, token: string, ids: FreshIds, at: RefreshTimes)
    requires FreshFor(w, ids)
    ensures Grown(w, Refresh(cfg, w, token, ids, at).0)
  {
    if token in w.tokens {
      TokensGrow(w.tokens, {token} + TokensOfSession(w.tokens, w.tokens[token].sessionId));
    }
  }

  lemma RevokeGrows(w: World, c: Claims, caller: string, at: RevokeTimes)
    ensures Grown(w, Revoke(w, c, caller, at).0)
  {
    if c.jti in w.sessions {
      TokensGrow(w.tokens, TokensOfSession(w.tokens, w.sessions[c.jti].id));
    }
  }

  lemma StepGrows(cfg: Config, w: World, e: Event)
    requires Enabled(w, e)
    ensures Grown(w, Step(cfg, w, e))
  {
    match e
    case DoRegister(email, userId, ids, at) =>
    case DoLogin(email, ok, ids, at) =>
    case DoRefresh(token, ids, at) => RefreshGrows(cfg, w, token, ids, at);
    case DoRevoke(c, caller, at) => RevokeGrows(w, c, caller, at);
    case DoRevokeAll(user, at) =>
      TokensGrow(w.tokens, TokensOfUser(w.tokens, user));
    case OtherTraffic(key, entry, t) =>
  }

  lemma {:induction false} RunGrows(cfg: Config, w: World, es: seq<Event>)
    requires CanRun(cfg, w, es)
    ensures Grown(w, Run(cfg, w, es))
    decreases |es|
  {
    if es != [] {
      StepGrows(cfg, w, es[0]);
      RunGrows(cfg, Step(cfg, w, es[0]), es[1..]);
    }
  }

  /** A token that a request revoked is never accepted again, whatever happens afterwards. */
  lemma NeverAcceptedAgain(cfg: Config, w: World, e: Event, es: seq<Event>, j: string, t: int)
    requires Inv(w) && Enabled(w, e) && j in w.issued && j in Requested(w, e)
    requires CanRun(cfg, Step(cfg, w, e), es) && Run(cfg, Step(cfg, w, e), es).now <= t
    ensures !Accepts(Run(cfg, Step(cfg, w, e), es).cache, w.issued[j], t, t)
  {
    var u := Step(cfg, w, e);
    var before := set i | i in w.sessions && w.sessions[i].isRevoked;
    var revoked := before + Requested(w, e);
    StepLinked(cfg, w, e, before);
    RunLinked(cfg, u, revoked, es);
    StepGrows(cfg, w, e);
    RunGrows(cfg, u, es);
    Decision(Run(cfg, u, es), RevokedForEver(cfg, u, revoked, es), j, t, t);
    UnexpiredIsBeforeExpiry(w.issued[j], t);
  }

  /** A refresh token that one step revoked is refused for ever. */
  lemma NeverExchangedAgain(cfg: Config, w: World, e: Event, es: seq<Event>, r: string, t: int)
    requires Enabled(w, e) && CanRun(cfg, Step(cfg, w, e), es)
    requires r in Step(cfg, w, e).tokens && Step(cfg, w, e).tokens[r].isRevoked
    ensures RefreshError(Run(cfg, Step(cfg, w, e), es), r, t) == Some(RefreshTokenRevoked)
  {
    RunGrows(cfg, Step(cfg, w, e), es);
  }

  /**
   Revoke-all is complete: whatever happens after it, no access token signed
   for that user before it is ever accepted and no earlier refresh token of
   that user can be exchanged, although only unexpired sessions are blacklisted.
   */
  lemma RevokeAllIsComplete(cfg: Config, w: World, user: string, at: RevokeAllTimes, es: seq<Event>, t: int)
    requires Inv(w) && Enabled(w, DoRevokeAll(user, at))
    requires var u := Step(cfg, w, DoRevokeAll(user, at)); CanRun(cfg, u, es) && Run(cfg, u, es).now <= t
    ensures var v := Run(cfg, Step(cfg, w, DoRevokeAll(user, at)), es);
      && (forall j :: j in w.issued && w.issued[j].sub == user ==> !Accepts(v.cache, w.issued[j], t, t))
      && (forall r :: r in w.tokens && w.tokens[r].userId == user ==> RefreshError(v, r, t) == Some(RefreshTokenRevoked))
  {
    var e := DoRevokeAll(user, at);
    forall j | j in w.issued && w.issued[j].sub == user
      ensures !Accepts(Run(cfg, Step(cfg, w, e), es).cache, w.issued[j], t, t)
    {
      NeverAcceptedAgain(cfg, w, e, es, j, t);
    }
    forall r | r in w.tokens && w.tokens[r].userId == user
      ensures RefreshError(Run(cfg, Step(cfg, w, e), es), r, t) == Some(RefreshTokenRevoked)
    {
      NeverExchangedAgain(cfg, w, e, es, r, t);
    }
  }

  /** Revoke-all is local: sessions, refresh tokens and decisions of everybody else stay as they were. */
  lemma RevokeAllIsLocal(w: World, user: string, at: RevokeAllTimes)
    requires Inv(w) && RevokeAllOrdered(at)
    ensures var v := RevokeAll(w, user, at).0;
      && v.sessions.Keys == w.sessions.Keys && v.tokens.Keys == w.tokens.Keys
      && (forall j :: j in w.sessions && w.sessions[j].userId != user ==> v.sessions[j] == w.sessions[j])
      && (forall r :: r in w.tokens && w.tokens[r].userId != user ==> v.tokens[r] == w.tokens[r])
      && (forall j, t, l :: j in w.issued && w.issued[j].sub != user ==>
            (Accepts(v.cache, w.issued[j], t, l) <==> Accepts(w.cache, w.issued[j], t, l)))
  {
  }
}
