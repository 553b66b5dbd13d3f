/** The invariant that ties sessions, refresh tokens, blacklist and signed tokens together in every run. */
module AuthInvariant {
  import opened Prelude
  import opened Cache
  import opened AuthModel

  /** The blacklist entry for a token outlives the token. */
  ghost predicate Outlives(e: Entry, c: Claims) {
    e.deadline.Never? || c.exp * 1000 <= e.deadline.ms
  }

  /** Every signed token has its session, which does not expire before the token. */
  ghost predicate SessionsBound(w: World) {
    && w.sessions.Keys == w.issued.Keys
    && (forall j :: j in w.issued ==>
        && w.issued[j].jti == j
        && w.issued[j].sub == w.sessions[j].userId
        && w.issued[j].exp * 1000 <= w.sessions[j].expiresAt)
    && (forall i, j :: i in w.sessions && j in w.sessions && w.sessions[i].id == w.sessions[j].id ==> i == j)
  }

  /** Only revoked sessions are blacklisted, and for long enough. */
  ghost predicate BlacklistSound(w: World)
    requires SessionsBound(w)
  {
    forall j :: j in w.cache.blacklist ==>
      j in w.sessions && w.sessions[j].isRevoked && Outlives(w.cache.blacklist[j], w.issued[j])
  }

  /** A revoked session is blacklisted or its token is past its expiry. */
  ghost predicate RevokedCovered(w: World)
    requires SessionsBound(w)
  {
    forall j :: j in w.sessions && w.sessions[j].isRevoked ==>
      w.issued[j].exp * 1000 <= w.now || j in w.cache.blacklist
  }

  /** A session has at most one refresh token, of the same user, dead once the session is revoked. */
  ghost predicate TokensBound(w: World) {
    && (forall r, j :: r in w.tokens && j in w.sessions && w.tokens[r].sessionId == w.sessions[j].id ==>
        w.tokens[r].userId == w.sessions[j].userId && (w.sessions[j].isRevoked ==> w.tokens[r].isRevoked))
    && (forall q, r :: q in w.tokens && r in w.tokens && w.tokens[q].sessionId == w.tokens[r].sessionId ==> q == r)
  }

  ghost predicate Inv(w: World) {
    SessionsBound(w) && BlacklistSound(w) && RevokedCovered(w) && TokensBound(w)
  }

  // ------------------------------------------------- what each step keeps

  /** Nothing here depends on the user table, on other keys or on how far the clock has gone. */
  lemma OthersKeep(w: World, v: World)
    requires Inv(w) && w.now <= v.now
    requires v.sessions == w.sessions && v.tokens == w.tokens && v.issued == w.issued
    requires v.cache.blacklist == w.cache.blacklist
    ensures Inv(v)
  {
  }

  lemma OpenKeepsSessions(cfg: Config, w: World, userId: string, ids: FreshIds, at: OpenTimes)
    requires SessionsBound(w) && FreshFor(w, ids) && OpenOrdered(at)
    ensures SessionsBound(Open(cfg, w, userId, ids, at))
  {
    var v := Open(cfg, w, userId, ids, at);
    assert v.issued[ids.jti].exp * 1000 <= v.sessions[ids.jti].expiresAt;
  }

  lemma OpenKeepsTokens(cfg: Config, w: World, userId: string, ids: FreshIds, at: OpenTimes)
    requires TokensBound(w) && FreshFor(w, ids)
    ensures TokensBound(Open(cfg, w, userId, ids, at))
  {
  }

  lemma OpenKeeps(cfg: Config, w: World, userId: string, ids: FreshIds, at: OpenTimes)
    requires Inv(w) && FreshFor(w, ids) && w.now <= at.session && OpenOrdered(at)
    ensures Inv(Open(cfg, w, userId, ids, at))
  {
    OpenKeepsSessions(cfg, w, userId, ids, at);
    OpenKeepsTokens(cfg, w, userId, ids, at);
  }

  /**
   One bulk revocation: the sessions `js` and refresh tokens `rs` are revoked
   and the jtis of `ttls` are blacklisted. The three conditions say that each
   entry outlives its token, that no revoked session is left uncovered, and
   that no refresh token of a revoked session is left alive.
   */
  ghost predicate Revoking(w: World, v: World, js: set<string>, rs: set<string>, ttls: map<string, int>, stored: string -> int) {
    && SessionsBound(w)
    && w.now <= v.now
    && v.issued == w.issued
    && v.sessions == RevokeSessions(w.sessions, js)
    && v.tokens == RevokeTokens(w.tokens, rs)
    && v.cache == BlacklistAll(w.cache, ttls, stored)
    && ttls.Keys <= js <= w.sessions.Keys
    && (forall j :: j in ttls && ttls[j] > 0 ==> w.issued[j].exp * 1000 <= stored(j) + ttls[j] * 1000)
    && (forall j :: j in js ==>
          w.issued[j].exp * 1000 <= v.now || j in w.cache.blacklist || (j in ttls && ttls[j] > 0))
    && (forall r, j :: r in w.tokens && j in js && w.tokens[r].sessionId == w.sessions[j].id ==> r in rs)
  }

  lemma RevokingKeepsSessions(w: World, v: World, js: set<string>)
    requires SessionsBound(w) && v.issued == w.issued && v.sessions == RevokeSessions(w.sessions, js)
    ensures SessionsBound(v)
  {
    assert forall j :: j in w.sessions ==> v.sessions[j].id == w.sessions[j].id;
    forall i, j | i in v.sessions && j in v.sessions && v.sessions[i].id == v.sessions[j].id
      ensures i == j
    {
      assert w.sessions[i].id == w.sessions[j].id;
    }
  }

  lemma RevokingKeepsBlacklist(w: World, v: World, js: set<string>, rs: set<string>, ttls: map<string, int>, stored: string -> int)
    requires Revoking(w, v, js, rs, ttls, stored) && SessionsBound(v)
    requires BlacklistSound(w) && RevokedCovered(w)
    ensures BlacklistSound(v) && RevokedCovered(v)
  {
    forall j | j in v.cache.blacklist
      ensures j in v.sessions && v.sessions[j].isRevoked && Outlives(v.cache.blacklist[j], v.issued[j])
    {
      assert j in ttls ==> j in js;
    }
    forall j | j in v.sessions && v.sessions[j].isRevoked
      ensures v.issued[j].exp * 1000 <= v.now || j in v.cache.blacklist
    {
      if j in ttls && ttls[j] > 0 {
        assert j in v.cache.blacklist;
      } else if j in w.cache.blacklist {
        assert j in v.cache.blacklist;
      } else if j !in js {
        assert w.sessions[j].isRevoked;
      }
    }
  }

  lemma RevokingKeepsTokens(w: World, v: World, js: set<string>, rs: set<string>, ttls: map<string, int>, stored: string -> int)
    requires Revoking(w, v, js, rs, ttls, stored) && TokensBound(w)
    ensures TokensBound(v)
  {
    forall r, j | r in v.tokens && j in v.sessions && v.tokens[r].sessionId == v.sessions[j].id
      ensures v.tokens[r].userId == v.sessions[j].userId && (v.sessions[j].isRevoked ==> v.tokens[r].isRevoked)
    {
      assert w.tokens[r].sessionId == w.sessions[j].id;
    }
    forall q, r | q in v.tokens && r in v.tokens && v.tokens[q].sessionId == v.tokens[r].sessionId
      ensures q == r
    {
      assert w.tokens[q].sessionId == w.tokens[r].sessionId;
    }
  }

  lemma RevokingKeeps(w: World, v: World, js: set<string>, rs: set<string>, ttls: map<string, int>, stored: string -> int)
    requires Inv(w) && Revoking(w, v, js, rs, ttls, stored)
    ensures Inv(v)
  {
    RevokingKeepsSessions(w, v, js);
    RevokingKeepsBlacklist(w, v, js, rs, ttls, stored);
    RevokingKeepsTokens(w, v, js, rs, ttls, stored);
  }

  lemma RetireKeeps(w: World, token: string, at: RefreshTimes)
    requires Inv(w) && token in w.tokens && w.now <= at.check && RefreshOrdered(at)
    ensures Inv(Retire(w, token, at))
  {
    var rec := w.tokens[token];
    var stale := RefreshedJtis(w, rec, at.active);
    RevokingKeeps(w, Retire(w, token, at), stale, {token} + TokensOfSession(w.tokens, rec.sessionId),
                  RetireTtls(w, rec, at), Always(at.store));
  }

  lemma RevokeKeeps(w: World, c: Claims, userId: string, at: RevokeTimes)
    requires Inv(w) && w.now <= at.lookup && RevokeOrdered(at) && c.jti in w.issued && w.issued[c.jti] == c
    ensures Inv(Revoke(w, c, userId, at).0)
  {
    var v := Revoke(w, c, userId, at).0;
    if w.sessions[c.jti].userId != userId {
      OthersKeep(w, v);
    } else {
      RevokeOwnKeeps(w, c, userId, at);
    }
  }

  lemma RevokeOwnKeeps(w: World, c: Claims, userId: string, at: RevokeTimes)
    requires Inv(w) && w.now <= at.lookup && RevokeOrdered(at) && c.jti in w.issued && w.issued[c.jti] == c
    requires w.sessions[c.jti].userId == userId
    ensures Inv(Revoke(w, c, userId, at).0)
  {
    var ttls := RevokeTtls(w.cache, c, at);
    assert forall j :: j in ttls ==> j == c.jti && c.exp * 1000 <= at.store + Max(0, c.exp - at.ttl / 1000) * 1000;
    RevokingKeeps(w, Revoke(w, c, userId, at).0, {c.jti}, TokensOfSession(w.tokens, w.sessions[c.jti].id), ttls, Always(at.store));
  }

  lemma RevokeAllKeeps(w: World, userId: string, at: RevokeAllTimes)
    requires Inv(w) && w.now <= at.active && RevokeAllOrdered(at)
    ensures Inv(RevokeAll(w, userId, at).0)
  {
    RevokingKeeps(w, RevokeAll(w, userId, at).0, SessionsOf(w.sessions, userId), TokensOfUser(w.tokens, userId),
                  TtlsOf(w.sessions, ActiveJtis(w.sessions, userId, at.active), at.sets), StoredAt(at.sets));
  }

  lemma RefreshKeeps(cfg: Config, w: World, token: string, ids: FreshIds, at: RefreshTimes)
    requires Inv(w) && w.now <= at.check && RefreshOrdered(at) && FreshFor(w, ids)
    ensures Inv(Refresh(cfg, w, token, ids, at).0)
  {
    if RefreshError(w, token, at.check).Some? {
      OthersKeep(w, Refresh(cfg, w, token, ids, at).0);
    } else {
      RetireKeeps(w, token, at);
      if w.tokens[token].userId in w.users.Values {
        assert FreshFor(Retire(w, token, at), ids);
        OpenKeeps(cfg, Retire(w, token, at), w.tokens[token].userId, ids, at.open);
      }
    }
  }

  lemma RegisterKeeps(cfg: Config, w: World, email: string, userId: string, ids: FreshIds, at: OpenTimes)
    requires Inv(w) && w.now <= at.sign && OpenOrdered(at) && FreshFor(w, ids)
    ensures Inv(Register(cfg, w, email, userId, ids, at).0)
  {
    var u := w.(users := w.users[email := userId]);
    OthersKeep(w, u);
    OthersKeep(w, w.(now := at.session));
    OpenKeeps(cfg, u, userId, ids, at);
  }

  lemma LoginKeeps(cfg: Config, w: World, email: string, ok: bool, ids: FreshIds, at: OpenTimes)
    requires Inv(w) && w.now <= at.sign && OpenOrdered(at) && FreshFor(w, ids)
    ensures Inv(Login(cfg, w, email, ok, ids, at).0)
  {
    if email in w.users && ok {
      OpenKeeps(cfg, w, w.users[email], ids, at);
    } else {
      OthersKeep(w, w.(now := at.session));
    }
  }

  lemma TrafficKeeps(cfg: Config, w: World, key: Key, entry: Option<Entry>, t: int)
    requires Inv(w) && w.now <= t && !key.Blacklist?
    ensures Inv(Step(cfg, w, OtherTraffic(key, entry, t)))
  {
    OthersKeep(w, Step(cfg, w, OtherTraffic(key, entry, t)));
  }

  /** Every step that the clock and the identifiers allow keeps the invariant and never turns the clock back. */
  lemma StepKeeps(cfg: Config, w: World, e: Event)
    requires Inv(w) && Enabled(w, e)
    ensures Inv(Step(cfg, w, e)) && w.now <= Step(cfg, w, e).now
  {
    match e
    case DoRegister(email, userId, ids, at) => RegisterKeeps(cfg, w, email, userId, ids, at);
    case DoLogin(email, ok, ids, at) => LoginKeeps(cfg, w, email, ok, ids, at);
    case DoRefresh(token, ids, at) => RefreshKeeps(cfg, w, token, ids, at);
    case DoRevoke(c, caller, at) => RevokeKeeps(w, c, caller, at);
    case DoRevokeAll(user, at) => RevokeAllKeeps(w, user, at);
    case OtherTraffic(key, entry, t) => TrafficKeeps(cfg, w, key, entry, t);
  }

  /** Every reachable state of every run satisfies the invariant. */
  lemma {:induction false} RunKeeps(cfg: Config, w: World, es: seq<Event>)
    requires Inv(w) && CanRun(cfg, w, es)
    ensures Inv(Run(cfg, w, es)) && w.now <= Run(cfg, w, es).now
    decreases |es|
  {
    if es != [] {
      StepKeeps(cfg, w, es[0]);
      RunKeeps(cfg, Step(cfg, w, es[0]), es[1..]);
    }
  }
}
