/**
 What each auth request answers and does to the tables, for every state: when it
 succeeds, what is handed out, what is written, and where a session may come from.
 */
module AuthRequests {
  import opened Prelude
  import opened Cache
  import opened AuthModel
  import opened AuthInvariant
  import opened AuthRevocation
  import opened AuthRotation

  // ---------------------------------------------------------------- success

  /** All stores are as before; only the clock has moved. */
  ghost predicate IsUntouched(w: World, v: World) {
    && v.users == w.users && v.sessions == w.sessions && v.tokens == w.tokens
    && v.cache == w.cache && v.issued == w.issued
  }

  /** A registration succeeds exactly for a new address, adds that account and keeps the others; else nothing is written. */
  lemma RegisterExact(cfg: Config, w: World, email: string, userId: string, ids: FreshIds, at: OpenTimes)
    ensures var (v, r) := Register(cfg, w, email, userId, ids, at);
      && (r.Ok? <==> email !in w.users)
      && (r.Ok? ==> v.users == w.users[email := userId])
      && (r.Err? ==> r.error == EmailTaken && IsUntouched(w, v))
  {
  }

  /** A login succeeds exactly when the address has an account and the password is right; else nothing is written. */
  lemma LoginExact(cfg: Config, w: World, email: string, passwordOk: bool, ids: FreshIds, at: OpenTimes)
    ensures var (v, r) := Login(cfg, w, email, passwordOk, ids, at);
      && (r.Ok? <==> email in w.users && passwordOk)
      && (r.Ok? ==> v.users == w.users && v.cache == w.cache)
      && (r.Err? ==> r.error == InvalidCredentials && IsUntouched(w, v))
  {
  }

  /** The row of a refresh token that may be exchanged at instant `t`. */
  ghost predicate IsOpen(w: World, token: string, t: int) {
    token in w.tokens && !w.tokens[token].isRevoked && t <= w.tokens[token].expiresAt
  }

  /**
   An exchange succeeds exactly for a stored, unrevoked, unexpired token of a user
   that exists. A token that fails the guards changes nothing; one whose user is
   gone is spent nevertheless.
   */
  lemma RefreshExact(cfg: Config, w: World, token: string, ids: FreshIds, at: RefreshTimes)
    requires ids.refresh !in w.tokens
    ensures var (v, r) := Refresh(cfg, w, token, ids, at);
      && (r.Ok? <==> IsOpen(w, token, at.check) && w.tokens[token].userId in w.users.Values)
      && (r == Err(InvalidRefreshToken) <==> token !in w.tokens)
      && (r == Err(RefreshTokenRevoked) <==> token in w.tokens && w.tokens[token].isRevoked)
      && (r == Err(RefreshTokenExpired) <==>
            token in w.tokens && !w.tokens[token].isRevoked && w.tokens[token].expiresAt < at.check)
      && (r == Err(UserNotFound) <==> IsOpen(w, token, at.check) && w.tokens[token].userId !in w.users.Values)
      && (!IsOpen(w, token, at.check) ==> IsUntouched(w, v))
      && (IsOpen(w, token, at.check) ==> v.users == w.users && token in v.tokens && v.tokens[token].isRevoked)
  {
  }

  /**
   A revocation succeeds exactly for the owner of a stored session. Then that
   session and its refresh tokens are revoked and no other row is changed; an entry
   that is on the blacklist is left alone. Otherwise nothing is written.
   */
  lemma RevokeExact(w: World, c: Claims, caller: string, at: RevokeTimes)
    ensures var (v, r) := Revoke(w, c, caller, at);
      && (r.Ok? <==> c.jti in w.sessions && w.sessions[c.jti].userId == caller)
      && (r == Err(SessionNotFound) <==> c.jti !in w.sessions)
      && (r == Err(NotSessionOwner) <==> c.jti in w.sessions && w.sessions[c.jti].userId != caller)
      && (r.Err? ==> IsUntouched(w, v))
      && (r.Ok? ==>
            && v.users == w.users && v.issued == w.issued
            && v.sessions == w.sessions[c.jti := w.sessions[c.jti].(isRevoked := true)]
            && v.tokens.Keys == w.tokens.Keys
            && (forall x :: x in w.tokens ==>
                  && v.tokens[x].(isRevoked := false) == w.tokens[x].(isRevoked := false)
                  && (v.tokens[x].isRevoked <==> w.tokens[x].isRevoked || w.tokens[x].sessionId == w.sessions[c.jti].id))
            && (Exists(w.cache, Blacklist(c.jti), at.lookup) ==> v.cache == w.cache))
  {
    if Exists(w.cache, Blacklist(c.jti), at.lookup) {
      BlacklistNothing(w.cache, Always(at.store));
    }
  }

  /** Revoke-all revokes every session and refresh token of the user and counts the sessions that were not revoked yet. */
  lemma RevokeAllExact(w: World, user: string, at: RevokeAllTimes)
    ensures var (v, count) := RevokeAll(w, user, at);
      && v.users == w.users && v.issued == w.issued
      && v.sessions.Keys == w.sessions.Keys && v.tokens.Keys == w.tokens.Keys
      && (forall j :: j in w.sessions ==>
            v.sessions[j] == if w.sessions[j].userId == user then w.sessions[j].(isRevoked := true) else w.sessions[j])
      && (forall x :: x in w.tokens ==>
            v.tokens[x] == if w.tokens[x].userId == user then w.tokens[x].(isRevoked := true) else w.tokens[x])
      && count == |set j | j in w.sessions && v.sessions[j] != w.sessions[j]|
  {
    var v := RevokeAll(w, user, at).0;
    assert (set j | j in w.sessions && v.sessions[j] != w.sessions[j])
        == set j | j in w.sessions && w.sessions[j].userId == user && !w.sessions[j].isRevoked;
  }

  // ------------------------------------------------------------ the answer

  /**
   What an answer hands out when `w` becomes `v`: a new refresh token and a new
   access token of the same new session of `user`. Both are in the tables as handed
   out, and each works exactly for its lifetime.
   */
  ghost predicate IsGrant(cfg: Config, w: World, v: World, user: string, g: Grant, at: OpenTimes) {
    var j := g.access.jti;
    && g.refresh !in w.tokens && g.refresh in v.tokens
    && j !in w.sessions && j in v.sessions && j !in w.issued && j in v.issued && v.issued[j] == g.access
    && g.access.sub == user && g.access.iat == at.sign / 1000
    && v.sessions[j].userId == user && !v.sessions[j].isRevoked
    && v.sessions[j].expiresAt == at.session + cfg.accessTtl * 1000
    && v.tokens[g.refresh].userId == user && v.tokens[g.refresh].sessionId == v.sessions[j].id
    && (forall t :: IsOpen(v, g.refresh, t) <==> t <= at.refresh + cfg.refreshTtl * 1000)
    && (forall t :: Accepts(v.cache, g.access, t, t) <==> t < (at.sign / 1000 + cfg.accessTtl) * 1000)
  }

  lemma OpenGrants(cfg: Config, w: World, userId: string, ids: FreshIds, at: OpenTimes)
    requires Inv(w) && FreshFor(w, ids) && OpenOrdered(at)
    ensures IsGrant(cfg, w, Open(cfg, w, userId, ids, at), userId, Grant(SignedClaims(cfg, userId, ids, at), ids.refresh), at)
  {
    forall t
      ensures Accepts(w.cache, SignedClaims(cfg, userId, ids, at), t, t) <==> t < (at.sign / 1000 + cfg.accessTtl) * 1000
    {
      UnexpiredIsBeforeExpiry(SignedClaims(cfg, userId, ids, at), t);
    }
  }

  /** A registration that succeeds answers a grant for the new account. */
  lemma RegisterGrants(cfg: Config, w: World, email: string, userId: string, ids: FreshIds, at: OpenTimes)
    requires Inv(w) && Enabled(w, DoRegister(email, userId, ids, at))
    ensures var (v, r) := Register(cfg, w, email, userId, ids, at);
      r.Ok? ==> IsGrant(cfg, w, v, userId, r.value, at)
  {
    if email !in w.users {
      var u := w.(users := w.users[email := userId]);
      OthersKeep(w, u);
      OpenGrants(cfg, u, userId, ids, at);
    }
  }

  /** A login that succeeds answers a grant for the account of its address. */
  lemma LoginGrants(cfg: Config, w: World, email: string, passwordOk: bool, ids: FreshIds, at: OpenTimes)
    requires Inv(w) && Enabled(w, DoLogin(email, passwordOk, ids, at))
    ensures var (v, r) := Login(cfg, w, email, passwordOk, ids, at);
      r.Ok? ==> email in w.users && IsGrant(cfg, w, v, w.users[email], r.value, at)
  {
    if email in w.users && passwordOk {
      OpenGrants(cfg, w, w.users[email], ids, at);
    }
  }

  /** The stores after the old token is retired have the rows they had. */
  lemma RetireKeepsNames(w: World, token: string, at: RefreshTimes)
    requires token in w.tokens
    ensures var u := Retire(w, token, at);
      u.tokens.Keys == w.tokens.Keys && u.sessions.Keys == w.sessions.Keys && u.issued == w.issued
  {
  }

  /** An exchange that succeeds answers a grant for the user of the token given: not that token, which is spent. */
  lemma RefreshGrants(cfg: Config, w: World, token: string, ids: FreshIds, at: RefreshTimes)
    requires Inv(w) && Enabled(w, DoRefresh(token, ids, at))
    ensures var (v, r) := Refresh(cfg, w, token, ids, at);
      r.Ok? ==>
        && token in w.tokens && r.value.refresh != token && token in v.tokens && v.tokens[token].isRevoked
        && IsGrant(cfg, w, v, w.tokens[token].userId, r.value, at.open)
  {
    if Refresh(cfg, w, token, ids, at).1.Ok? {
      var u := Retire(w, token, at);
      RetireKeeps(w, token, at);
      RetireKeepsNames(w, token, at);
      assert FreshFor(u, ids);
      OpenGrants(cfg, u, w.tokens[token].userId, ids, at.open);
    }
  }

  /** A refresh token that a state lacks was in no earlier state: what a grant hands out is new for ever. */
  lemma {:induction false} NeverStoredBefore(cfg: Config, u: World, es: seq<Event>, refresh: string)
    requires CanRun(cfg, u, es) && refresh !in Run(cfg, u, es).tokens
    ensures refresh !in u.tokens
  {
    RunGrows(cfg, u, es);
  }

  // ------------------------------------------------ where sessions come from

  /**
   A new session of a user comes only from a registration of a new address for that
   user, a login with the right password to an address of that user, or the exchange
   of an unrevoked, unexpired refresh token of that user.
   */
  lemma SessionsComeFrom(cfg: Config, w: World, e: Event, j: string)
    requires Enabled(w, e) && j in Step(cfg, w, e).sessions && j !in w.sessions
    ensures var user := Step(cfg, w, e).sessions[j].userId;
      || (e.DoRegister? && e.email !in w.users && e.userId == user)
      || (e.DoLogin? && e.passwordOk && e.email in w.users && w.users[e.email] == user)
      || (e.DoRefresh? && IsOpen(w, e.token, e.rat.check) && w.tokens[e.token].userId == user && user in w.users.Values)
  {
  }

  /** The same for refresh tokens. */
  lemma TokensComeFrom(cfg: Config, w: World, e: Event, x: string)
    requires Enabled(w, e) && x in Step(cfg, w, e).tokens && x !in w.tokens
    ensures var user := Step(cfg, w, e).tokens[x].userId;
      || (e.DoRegister? && e.email !in w.users && e.userId == user)
      || (e.DoLogin? && e.passwordOk && e.email in w.users && w.users[e.email] == user)
      || (e.DoRefresh? && IsOpen(w, e.token, e.rat.check) && w.tokens[e.token].userId == user && user in w.users.Values)
  {
  }

  /** Sessions and refresh tokens belong to accounts. */
  ghost predicate HaveAccounts(w: World) {
    && (forall j :: j in w.sessions ==> w.sessions[j].userId in w.users.Values)
    && (forall x :: x in w.tokens ==> w.tokens[x].userId in w.users.Values)
  }

  lemma AccountsStay(cfg: Config, w: World, e: Event)
    requires Enabled(w, e)
    ensures forall a :: a in w.users ==> a in Step(cfg, w, e).users && Step(cfg, w, e).users[a] == w.users[a]
    ensures w.users.Values <= Step(cfg, w, e).users.Values
  {
    var v := Step(cfg, w, e);
    assert forall a :: a in w.users ==> a in v.users && v.users[a] == w.users[a];
    forall x | x in w.users.Values
      ensures x in v.users.Values
    {
      var a :| a in w.users && w.users[a] == x;
      assert a in v.users && v.users[a] == x;
    }
  }

  /** Owners do not change. */
  lemma OwnersStay(cfg: Config, w: World, e: Event)
    requires Inv(w) && Enabled(w, e)
    ensures var v := Step(cfg, w, e);
      && (forall j :: j in w.sessions ==> j in v.sessions && v.sessions[j].userId == w.sessions[j].userId)
      && (forall x :: x in w.tokens ==> x in v.tokens && v.tokens[x].userId == w.tokens[x].userId)
  {
    StepGrows(cfg, w, e);
    SessionsStay(cfg, w, e);
  }

  lemma SessionsStay(cfg: Config, w: World, e: Event)
    requires SessionsBound(w) && Enabled(w, e)
    ensures var v := Step(cfg, w, e);
      forall j :: j in w.sessions ==> j in v.sessions && v.sessions[j].userId == w.sessions[j].userId
  {
    match e
    case DoRefresh(token, ids, at) => RefreshSessionsStay(cfg, w, token, ids, at);
    case _ =>
  }

  lemma RefreshSessionsStay(cfg: Config, w: World, token: string, ids: FreshIds, at: RefreshTimes)
    requires SessionsBound(w) && FreshFor(w, ids)
    ensures var v := Refresh(cfg, w, token, ids, at).0;
      forall j :: j in w.sessions ==> j in v.sessions && v.sessions[j].userId == w.sessions[j].userId
  {
  }

  lemma NewAccount(cfg: Config, w: World, e: Event)
    requires e.DoRegister? && e.email !in w.users
    ensures e.userId in Step(cfg, w, e).users.Values
  {
    assert Step(cfg, w, e).users[e.email] == e.userId;
  }

  lemma StepHasAccounts(cfg: Config, w: World, e: Event)
    requires Inv(w) && HaveAccounts(w) && Enabled(w, e)
    ensures HaveAccounts(Step(cfg, w, e))
  {
    var v := Step(cfg, w, e);
    AccountsStay(cfg, w, e);
    OwnersStay(cfg, w, e);
    if e.DoRegister? && e.email !in w.users {
      NewAccount(cfg, w, e);
    }
    forall j | j in v.sessions
      ensures v.sessions[j].userId in v.users.Values
    {
      if j !in w.sessions { SessionsComeFrom(cfg, w, e, j); }
    }
    forall x | x in v.tokens
      ensures v.tokens[x].userId in v.users.Values
    {
      if x !in w.tokens { TokensComeFrom(cfg, w, e, x); }
    }
  }

  lemma {:induction false} RunHasAccounts(cfg: Config, w: World, es: seq<Event>)
    requires Inv(w) && HaveAccounts(w) && CanRun(cfg, w, es)
    ensures Inv(Run(cfg, w, es)) && HaveAccounts(Run(cfg, w, es))
    decreases |es|
  {
    if es != [] {
      StepKeeps(cfg, w, es[0]);
      StepHasAccounts(cfg, w, es[0]);
      RunHasAccounts(cfg, Step(cfg, w, es[0]), es[1..]);
    }
  }

  /**
   In every reachable state each session and refresh token belongs to an account,
   and an exchange succeeds if and only if its token is stored, unrevoked and
   unexpired: it never fails for want of a user.
   */
  lemma ExchangeExact(cfg: Config, es: seq<Event>, token: string, ids: FreshIds, at: RefreshTimes)
    requires CanRun(cfg, INITIAL, es) && ids.refresh !in Run(cfg, INITIAL, es).tokens
    ensures var w := Run(cfg, INITIAL, es);
      && HaveAccounts(w)
      && (Refresh(cfg, w, token, ids, at).1.Ok? <==> IsOpen(w, token, at.check))
  {
    RunHasAccounts(cfg, INITIAL, es);
    RefreshExact(cfg, Run(cfg, INITIAL, es), token, ids, at);
  }

  // --------------------------------------------------------- what is forgotten

  /** How long an entry lasts that a refresh or revoke-all writes at `stored`, with the time left reckoned at `reckoned`. */
  ghost predicate LastsUntilExpiry(e: Entry, s: Session, reckoned: int, stored: int) {
    && e.value == Text("revoked") && e.deadline.At?
    && s.expiresAt - reckoned <= e.deadline.ms - stored < s.expiresAt - reckoned + 1000
  }

  /** A new or changed entry of a bulk write is one of the write. */
  lemma NewEntry(cache: Store, ttls: map<string, int>, stored: string -> int, j: string)
    requires j in BlacklistAll(cache, ttls, stored).blacklist
    requires j in cache.blacklist ==> BlacklistAll(cache, ttls, stored).blacklist[j] != cache.blacklist[j]
    ensures j in ttls && ttls[j] > 0
    ensures BlacklistAll(cache, ttls, stored).blacklist[j] == Entry(Text("revoked"), At(stored(j) + ttls[j] * 1000))
  {
  }

  ghost predicate IsNewEntry(w: World, v: World, j: string) {
    j in v.cache.blacklist && (j in w.cache.blacklist ==> v.cache.blacklist[j] != w.cache.blacklist[j])
  }

  lemma RefreshEntry(cfg: Config, w: World, token: string, ids: FreshIds, at: RefreshTimes, j: string)
    requires IsNewEntry(w, Refresh(cfg, w, token, ids, at).0, j)
    ensures token in w.tokens && j in w.sessions && w.sessions[j].id == w.tokens[token].sessionId
    ensures LastsUntilExpiry(Refresh(cfg, w, token, ids, at).0.cache.blacklist[j], w.sessions[j], at.ttl, at.store)
  {
    var v := Refresh(cfg, w, token, ids, at).0;
    assert v.cache != w.cache;
    var ttls := RetireTtls(w, w.tokens[token], at);
    NewEntry(w.cache, ttls, Always(at.store), j);
  }

  lemma RevokeAllEntry(w: World, user: string, at: RevokeAllTimes, j: string)
    requires IsNewEntry(w, RevokeAll(w, user, at).0, j)
    ensures j in w.sessions && w.sessions[j].userId == user
    ensures LastsUntilExpiry(RevokeAll(w, user, at).0.cache.blacklist[j], w.sessions[j], at.sets(j).ttl, at.sets(j).store)
  {
    NewEntry(w.cache, TtlsOf(w.sessions, ActiveJtis(w.sessions, user, at.active), at.sets), StoredAt(at.sets), j);
  }

  lemma RevokeEntry(w: World, c: Claims, caller: string, at: RevokeTimes, j: string)
    requires IsNewEntry(w, Revoke(w, c, caller, at).0, j)
    ensures j == c.jti
    ensures Revoke(w, c, caller, at).0.cache.blacklist[j]
         == Entry(Text("revoked"), At(at.store + (c.exp - at.ttl / 1000) * 1000))
  {
    NewEntry(w.cache, RevokeTtls(w.cache, c, at), Always(at.store), j);
  }

  /**
   A new entry of the blacklist is one for a session that the request revokes, and
   lasts for the time its token or session has left, to within a second.
   */
  lemma NewEntriesAreTight(cfg: Config, w: World, e: Event, j: string)
    requires Enabled(w, e) && IsNewEntry(w, Step(cfg, w, e), j)
    ensures var entry := Step(cfg, w, e).cache.blacklist[j];
      || (e.DoRefresh? && e.token in w.tokens && j in w.sessions && w.sessions[j].id == w.tokens[e.token].sessionId
          && LastsUntilExpiry(entry, w.sessions[j], e.rat.ttl, e.rat.store))
      || (e.DoRevokeAll? && j in w.sessions && w.sessions[j].userId == e.user
          && LastsUntilExpiry(entry, w.sessions[j], e.aat.sets(j).ttl, e.aat.sets(j).store))
      || (e.DoRevoke? && j == e.claims.jti
          && entry == Entry(Text("revoked"), At(e.vat.store + (e.claims.exp - e.vat.ttl / 1000) * 1000)))
  {
    match e
    case DoRefresh(token, ids, at) => RefreshEntry(cfg, w, token, ids, at, j);
    case DoRevoke(c, caller, at) => RevokeEntry(w, c, caller, at, j);
    case DoRevokeAll(user, at) => RevokeAllEntry(w, user, at, j);
    case _ =>
  }

  /** No entry of the blacklist lasts for ever, in any reachable state. */
  lemma {:induction false} EveryEntryExpires(cfg: Config, w: World, es: seq<Event>)
    requires CanRun(cfg, w, es) && forall j :: j in w.cache.blacklist ==> w.cache.blacklist[j].deadline.At?
    ensures forall j :: j in Run(cfg, w, es).cache.blacklist ==> Run(cfg, w, es).cache.blacklist[j].deadline.At?
    decreases |es|
  {
    if es != [] {
      var v := Step(cfg, w, es[0]);
      forall j | j in v.cache.blacklist
        ensures v.cache.blacklist[j].deadline.At?
      {
        if j !in w.cache.blacklist || v.cache.blacklist[j] != w.cache.blacklist[j] {
          NewEntriesAreTight(cfg, w, es[0], j);
        }
      }
      EveryEntryExpires(cfg, v, es[1..]);
    }
  }
}
