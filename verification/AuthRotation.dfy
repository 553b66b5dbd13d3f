/** Refresh-token rotation: single exchange, one live token in each chain, nobody gains or loses a live token. */
module AuthRotation {
  import opened Prelude
  import opened Cache
  import opened AuthModel
  import opened AuthInvariant
  import opened AuthRevocation

  /** An exchange that spends the token, whether or not its user still exists. */
  ghost predicate Spends(w: World, e: Event, token: string) {
    e.DoRefresh? && e.token == token && RefreshError(w, token, e.rat.check).None?
  }

  /** A refresh token is exchanged at most once: a second exchange later in any run is refused. */
  lemma ExchangedAtMostOnce(cfg: Config, w: World, e: Event, es: seq<Event>, token: string, t: int)
    requires Enabled(w, e) && Spends(w, e, token) && CanRun(cfg, Step(cfg, w, e), es)
    ensures RefreshError(Run(cfg, Step(cfg, w, e), es), token, t) == Some(RefreshTokenRevoked)
  {
    NeverExchangedAgain(cfg, w, e, es, token, t);
  }

  ghost function LiveTokens(w: World, userId: string): set<string> {
    set r | r in w.tokens && w.tokens[r].userId == userId && !w.tokens[r].isRevoked
  }

  /** A successful exchange replaces the user's token by the new one and touches no other live token of anybody. */
  lemma RefreshReplacesOneLiveToken(cfg: Config, w: World, token: string, ids: FreshIds, at: RefreshTimes, user: string)
    requires Inv(w) && Enabled(w, DoRefresh(token, ids, at))
    requires Refresh(cfg, w, token, ids, at).1.Ok?
    ensures var v := Refresh(cfg, w, token, ids, at).0;
      LiveTokens(v, user) ==
        if user == w.tokens[token].userId then LiveTokens(w, user) - {token} + {ids.refresh} else LiveTokens(w, user)
  {
    assert TokensOfSession(w.tokens, w.tokens[token].sessionId) == {token};
  }

  /** Rotation conserves the number of live refresh tokens of every user. */
  lemma RefreshConservesLiveTokens(cfg: Config, w: World, token: string, ids: FreshIds, at: RefreshTimes, user: string)
    requires Inv(w) && Enabled(w, DoRefresh(token, ids, at))
    requires Refresh(cfg, w, token, ids, at).1.Ok?
    ensures |LiveTokens(Refresh(cfg, w, token, ids, at).0, user)| == |LiveTokens(w, user)|
  {
    RefreshReplacesOneLiveToken(cfg, w, token, ids, at, user);
    assert user == w.tokens[token].userId ==> token in LiveTokens(w, user) && ids.refresh !in LiveTokens(w, user);
  }

  /** In every reachable state a revoked session has no live refresh token. */
  lemma RevokedSessionHasNoLiveToken(cfg: Config, es: seq<Event>, j: string, r: string)
    requires CanRun(cfg, INITIAL, es)
    requires var w := Run(cfg, INITIAL, es);
      j in w.sessions && w.sessions[j].isRevoked && r in w.tokens && w.tokens[r].sessionId == w.sessions[j].id
    ensures Run(cfg, INITIAL, es).tokens[r].isRevoked
  {
    RunKeeps(cfg, INITIAL, es);
  }

  /**
   What a login, a registration or an exchange hands out works for exactly its
   lifetime: the access token until the whole second of signing plus its lifetime,
   the refresh token up to its expiry.
   */
  lemma FreshGrantWorks(cfg: Config, w: World, userId: string, ids: FreshIds, at: OpenTimes, t: int)
    requires Inv(w) && FreshFor(w, ids) && OpenOrdered(at)
    ensures var v := Open(cfg, w, userId, ids, at);
      && v.issued[ids.jti].sub == userId == v.tokens[ids.refresh].userId
      && (Accepts(v.cache, v.issued[ids.jti], t, t) <==> t < (at.sign / 1000 + cfg.accessTtl) * 1000)
      && (RefreshError(v, ids.refresh, t).None? <==> t <= at.refresh + cfg.refreshTtl * 1000)
  {
    UnexpiredIsBeforeExpiry(SignedClaims(cfg, userId, ids, at), t);
  }

  // ---------------------------------------------------------------- chains

  /** Logins and registrations are numbered; `of` gives each refresh token the number of the one it descends from. */
  datatype Chains = Chains(of: map<string, nat>, next: nat)

  function Begin(chains: Chains, token: string): Chains {
    Chains(chains.of[token := chains.next], chains.next + 1)
  }

  ghost function Chained(cfg: Config, w: World, chains: Chains, e: Event): Chains {
    match e
    case DoRegister(email, userId, ids, at) =>
      if Register(cfg, w, email, userId, ids, at).1.Ok? then Begin(chains, ids.refresh) else chains
    case DoLogin(email, ok, ids, at) =>
      if Login(cfg, w, email, ok, ids, at).1.Ok? then Begin(chains, ids.refresh) else chains
    case DoRefresh(token, ids, at) =>
      if Refresh(cfg, w, token, ids, at).1.Ok? && token in chains.of
      then Chains(chains.of[ids.refresh := chains.of[token]], chains.next) else chains
    case DoRevoke(_, _, _) => chains
    case DoRevokeAll(_, _) => chains
    case OtherTraffic(_, _, _) => chains
  }

  ghost function ChainsOf(cfg: Config, w: World, chains: Chains, es: seq<Event>): Chains
    decreases |es|
  {
    if es == [] then chains else ChainsOf(cfg, Step(cfg, w, es[0]), Chained(cfg, w, chains, es[0]), es[1..])
  }

  ghost predicate Live(w: World, r: string) {
    r in w.tokens && !w.tokens[r].isRevoked
  }

  ghost predicate ChainsBound(w: World, chains: Chains) {
    && chains.of.Keys == w.tokens.Keys
    && (forall r :: r in chains.of ==> chains.of[r] < chains.next)
    && (forall q, r :: Live(w, q) && Live(w, r) && chains.of[q] == chains.of[r] ==> q == r)
  }

  /** Adding one live token to a chain whose other tokens are all dead. */
  lemma ExtendChain(w: World, v: World, chains: Chains, next: nat, newToken: string, root: nat)
    requires ChainsBound(w, chains) && newToken !in w.tokens
    requires v.tokens.Keys == w.tokens.Keys + {newToken} && root < next && chains.next <= next
    requires forall r :: r in w.tokens && Live(v, r) ==> Live(w, r) && chains.of[r] != root
    ensures ChainsBound(v, Chains(chains.of[newToken := root], next))
  {
    var c := Chains(chains.of[newToken := root], next);
    forall q, r | Live(v, q) && Live(v, r) && c.of[q] == c.of[r]
      ensures q == r
    {
      assert q != newToken ==> Live(w, q);
      assert r != newToken ==> Live(w, r);
    }
  }

  /** An exchange adds one token and leaves only others alive. */
  lemma RefreshTokens(cfg: Config, w: World, token: string, ids: FreshIds, at: RefreshTimes)
    requires ids.refresh !in w.tokens && Refresh(cfg, w, token, ids, at).1.Ok?
    ensures var v := Refresh(cfg, w, token, ids, at).0;
      && Live(w, token) && v.tokens.Keys == w.tokens.Keys + {ids.refresh}
      && forall r :: r in w.tokens && Live(v, r) ==> Live(w, r) && r != token
  {
  }

  lemma RefreshChains(cfg: Config, w: World, chains: Chains, token: string, ids: FreshIds, at: RefreshTimes)
    requires ids.refresh !in w.tokens && ChainsBound(w, chains)
    requires Refresh(cfg, w, token, ids, at).1.Ok?
    ensures ChainsBound(Refresh(cfg, w, token, ids, at).0, Chained(cfg, w, chains, DoRefresh(token, ids, at)))
  {
    var v := Refresh(cfg, w, token, ids, at).0;
    RefreshTokens(cfg, w, token, ids, at);
    assert token in chains.of;
    ExtendChain(w, v, chains, chains.next, ids.refresh, chains.of[token]);
  }

  /** A step that adds no token keeps every chain. */
  lemma NoNewToken(w: World, v: World, chains: Chains)
    requires ChainsBound(w, chains) && v.tokens.Keys == w.tokens.Keys
    requires forall r :: Live(v, r) ==> Live(w, r)
    ensures ChainsBound(v, chains)
  {
  }

  lemma OpenChains(cfg: Config, w: World, chains: Chains, userId: string, ids: FreshIds, at: OpenTimes)
    requires ChainsBound(w, chains) && ids.refresh !in w.tokens
    ensures ChainsBound(Open(cfg, w, userId, ids, at), Begin(chains, ids.refresh))
  {
    ExtendChain(w, Open(cfg, w, userId, ids, at), chains, chains.next + 1, ids.refresh, chains.next);
  }

  lemma RevokingChains(w: World, v: World, chains: Chains, rs: set<string>)
    requires ChainsBound(w, chains) && v.tokens == RevokeTokens(w.tokens, rs)
    ensures ChainsBound(v, chains)
  {
    assert forall r :: Live(v, r) ==> Live(w, r);
    NoNewToken(w, v, chains);
  }

  lemma RevokeChains(w: World, c: Claims, caller: string, at: RevokeTimes, chains: Chains)
    requires ChainsBound(w, chains)
    ensures ChainsBound(Revoke(w, c, caller, at).0, chains)
  {
    if c.jti in w.sessions && w.sessions[c.jti].userId == caller {
      RevokingChains(w, Revoke(w, c, caller, at).0, chains, TokensOfSession(w.tokens, w.sessions[c.jti].id));
    }
  }

  lemma ExchangeChains(cfg: Config, w: World, chains: Chains, token: string, ids: FreshIds, at: RefreshTimes)
    requires ids.refresh !in w.tokens && ChainsBound(w, chains)
    ensures ChainsBound(Refresh(cfg, w, token, ids, at).0, Chained(cfg, w, chains, DoRefresh(token, ids, at)))
  {
    if Refresh(cfg, w, token, ids, at).1.Ok? {
      RefreshChains(cfg, w, chains, token, ids, at);
    } else if RefreshError(w, token, at.check).None? {
      RevokingChains(w, Refresh(cfg, w, token, ids, at).0, chains, {token} + TokensOfSession(w.tokens, w.tokens[token].sessionId));
    }
  }

  lemma StepChains(cfg: Config, w: World, chains: Chains, e: Event)
    requires Enabled(w, e) && ChainsBound(w, chains)
    ensures ChainsBound(Step(cfg, w, e), Chained(cfg, w, chains, e))
  {
    var v := Step(cfg, w, e);
    match e
    case DoRegister(email, userId, ids, at) =>
      OpenChains(cfg, w.(users := w.users[email := userId]), chains, userId, ids, at);
    case DoLogin(email, ok, ids, at) =>
      if email in w.users { OpenChains(cfg, w, chains, w.users[email], ids, at); }
    case DoRefresh(token, ids, at) =>
      ExchangeChains(cfg, w, chains, token, ids, at);
    case DoRevoke(c, caller, at) => RevokeChains(w, c, caller, at, chains);
    case DoRevokeAll(user, at) => RevokingChains(w, v, chains, TokensOfUser(w.tokens, user));
    case OtherTraffic(key, entry, t) =>
  }

  lemma {:induction false} RunChains(cfg: Config, w: World, chains: Chains, es: seq<Event>)
    requires ChainsBound(w, chains) && CanRun(cfg, w, es)
    ensures ChainsBound(Run(cfg, w, es), ChainsOf(cfg, w, chains, es))
    decreases |es|
  {
    if es != [] {
      StepChains(cfg, w, chains, es[0]);
      RunChains(cfg, Step(cfg, w, es[0]), Chained(cfg, w, chains, es[0]), es[1..]);
    }
  }

  /** Every refresh token belongs to the chain of one login or registration, and a chain never has two live tokens. */
  lemma OneLiveTokenPerChain(cfg: Config, es: seq<Event>, q: string, r: string)
    requires CanRun(cfg, INITIAL, es)
    requires Live(Run(cfg, INITIAL, es), q) && Live(Run(cfg, INITIAL, es), r)
    ensures var of := ChainsOf(cfg, INITIAL, Chains(map[], 0), es).of;
      q in of && r in of && (of[q] == of[r] ==> q == r)
  {
    RunChains(cfg, INITIAL, Chains(map[], 0), es);
  }

  // ------------------------------------------------------------- overlaps

  /** The writes of an exchange, whose guards ran on an earlier state. */
  ghost function LateRefresh(cfg: Config, w: World, token: string, ids: FreshIds, at: RefreshTimes): World
    requires token in w.tokens
  {
    Open(cfg, Retire(w, token, at), w.tokens[token].userId, ids, at.open)
  }

  lemma LateRefreshLive(cfg: Config, w: World, token: string, ids: FreshIds, at: RefreshTimes)
    requires Inv(w) && token in w.tokens && FreshFor(w, ids)
    ensures var user := w.tokens[token].userId;
      LiveTokens(LateRefresh(cfg, w, token, ids, at), user) == LiveTokens(w, user) - {token} + {ids.refresh}
  {
    assert {token} + TokensOfSession(w.tokens, w.tokens[token].sessionId) == {token};
  }

  /**
   The guards and the writes of an exchange are separate queries. Writes that
   come after another exchange of the same token still hand out a new token: the
   number of live tokens is conserved if and only if the token is still live when
   the writes begin, and otherwise it grows by one.
   */
  lemma OverlappingRefreshExact(cfg: Config, w: World, token: string, ids: FreshIds, at: RefreshTimes)
    requires Inv(w) && token in w.tokens && FreshFor(w, ids)
    ensures var user := w.tokens[token].userId;
      |LiveTokens(LateRefresh(cfg, w, token, ids, at), user)| ==
      |LiveTokens(w, user)| + if w.tokens[token].isRevoked then 1 else 0
  {
    LateRefreshLive(cfg, w, token, ids, at);
    var live := LiveTokens(w, w.tokens[token].userId);
    assert ids.refresh !in live && (token in live <==> !w.tokens[token].isRevoked);
  }

  // ------------------------------------- revocation with unverified claims

  /**
   `revokeSession` reads the claims of a token that fails verification without
   checking them. Called directly with claims whose `exp` is not the signed
   one, it leaves the blacklist right, from the end of the call on, exactly
   when the jti was blacklisted already, the signed token is past its expiry, or
   the TTL computed from the claimed `exp` still reaches the signed one.
   */
  lemma UnverifiedRevokeExact(w: World, c: Claims, userId: string, at: RevokeTimes)
    requires Inv(w) && w.now <= at.lookup && RevokeOrdered(at)
    requires c.jti in w.sessions && w.sessions[c.jti].userId == userId
    ensures var v := Revoke(w, c, userId, at).0;
      var signed := w.issued[c.jti];
      (forall t :: v.now <= t ==> !Accepts(v.cache, signed, t, t)) <==>
      || Exists(w.cache, Blacklist(c.jti), at.lookup)
      || signed.exp * 1000 <= at.store
      || (c.exp > at.ttl / 1000 && signed.exp * 1000 <= at.store + (c.exp - at.ttl / 1000) * 1000)
  {
    var v := Revoke(w, c, userId, at).0;
    var signed := w.issued[c.jti];
    var deadline := at.store + (c.exp - at.ttl / 1000) * 1000;
    RevokedEntry(w, c, userId, at);
    if !Exists(w.cache, Blacklist(c.jti), at.lookup) && at.store < signed.exp * 1000 {
      if c.exp > at.ttl / 1000 && deadline < signed.exp * 1000 {
        assert Accepts(v.cache, signed, deadline, deadline);
      } else if c.exp <= at.ttl / 1000 {
        assert Accepts(v.cache, signed, at.store, at.store);
      }
    }
  }

  /** What the blacklist holds for the jti after the revocation. */
  lemma RevokedEntry(w: World, c: Claims, userId: string, at: RevokeTimes)
    requires Inv(w) && w.now <= at.lookup && RevokeOrdered(at)
    requires c.jti in w.sessions && w.sessions[c.jti].userId == userId
    ensures var entry := EntryAt(Revoke(w, c, userId, at).0.cache, Blacklist(c.jti));
      if Exists(w.cache, Blacklist(c.jti), at.lookup) then entry.Some? && Outlives(entry.value, w.issued[c.jti])
      else if c.exp > at.ttl / 1000 then entry == Some(Entry(REVOKED, At(at.store + (c.exp - at.ttl / 1000) * 1000)))
      else entry.Some? ==> w.issued[c.jti].exp * 1000 <= at.store
  {
    RevokeWrites(w.cache, c, at);
    assert EntryAt(w.cache, Blacklist(c.jti)).Some? ==> Outlives(w.cache.blacklist[c.jti], w.issued[c.jti]);
  }

  /** The one write of a revocation, or none. */
  lemma RevokeWrites(cache: Store, c: Claims, at: RevokeTimes)
    ensures BlacklistAll(cache, RevokeTtls(cache, c, at), Always(at.store)) ==
      if Exists(cache, Blacklist(c.jti), at.lookup) then cache
      else BlacklistOne(cache, c.jti, Max(0, c.exp - at.ttl / 1000), at.store)
  {
    BlacklistNothing(cache, Always(at.store));
    BlacklistExtend(cache, map[], c.jti, Max(0, c.exp - at.ttl / 1000), Always(at.store));
  }

  /** In particular claims that expire no earlier than the signed token are always enough. */
  lemma LateClaimsSuffice(w: World, c: Claims, userId: string, at: RevokeTimes)
    requires Inv(w) && w.now <= at.lookup && RevokeOrdered(at)
    requires c.jti in w.sessions && w.sessions[c.jti].userId == userId && w.issued[c.jti].exp <= c.exp
    ensures forall t :: at.store <= t ==> !Accepts(Revoke(w, c, userId, at).0.cache, w.issued[c.jti], t, t)
  {
    UnverifiedRevokeExact(w, c, userId, at);
  }
}
