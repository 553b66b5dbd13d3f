/**
 What `AuthService`, `SessionRepository` and the auth middleware do, as one
 step function over the four stores they share: users, sessions, refresh
 tokens and the blacklist. Instants are milliseconds; every call of the system
 clock inside a step is a separate reading, so time may pass inside a step.
 */
module AuthModel {
  import opened Prelude
  import opened Cache

  /** The claims of a signed access token; `exp` is in whole seconds (RFC 7519, section 4.1.4). */
  datatype Claims = Claims(sub: string, jti: string, iat: int, exp: int)

  datatype Session = Session(id: string, userId: string, expiresAt: int, isRevoked: bool)

  datatype RefreshToken = RefreshToken(userId: string, sessionId: string, expiresAt: int, isRevoked: bool)

  /** Token lifetimes in seconds, as read from the environment. */
  datatype Config = Config(accessTtl: nat, refreshTtl: nat)

  /**
   `users` maps e-mail to user id, `sessions` is keyed by jti and `tokens` by
   the opaque refresh token. `issued` is history: every access token ever signed.
   */
  datatype World = World(
    now: int,
    users: map<string, string>,
    sessions: map<string, Session>,
    tokens: map<string, RefreshToken>,
    cache: Store,
    issued: map<string, Claims>)

  const INITIAL := World(0, map[], map[], map[], EMPTY, map[])

  datatype AuthError =
    | EmailTaken | InvalidCredentials
    | InvalidRefreshToken | RefreshTokenRevoked | RefreshTokenExpired | UserNotFound
    | InvalidTokenFormat | SessionNotFound | NotSessionOwner
    | TokenExpired | InvalidToken | TokenRevoked

  /** Fresh identifiers a step draws: jti, session id and refresh token. */
  datatype FreshIds = FreshIds(jti: string, sessionId: string, refresh: string)

  /** Clock readings while a token pair is made: signing, refresh expiry, session expiry. */
  datatype OpenTimes = OpenTimes(sign: int, refresh: int, session: int)

  /** Clock readings of a refresh: expiry guard, session query, TTL computation, Redis write, new pair. */
  datatype RefreshTimes = RefreshTimes(check: int, active: int, ttl: int, store: int, open: OpenTimes)

  /** Clock readings of a single revocation: blacklist lookup, TTL computation, Redis write. */
  datatype RevokeTimes = RevokeTimes(lookup: int, ttl: int, store: int)

  datatype SetTimes = SetTimes(ttl: int, store: int)

  /** Clock readings of revoke-all: session query, one TTL and one Redis write for each session, end. */
  datatype RevokeAllTimes = RevokeAllTimes(active: int, sets: string -> SetTimes, end: int)

  predicate OpenOrdered(at: OpenTimes) {
    at.sign <= at.refresh <= at.session
  }

  predicate RefreshOrdered(at: RefreshTimes) {
    at.check <= at.active <= at.ttl <= at.store <= at.open.sign && OpenOrdered(at.open)
  }

  predicate RevokeOrdered(at: RevokeTimes) {
    at.lookup <= at.ttl <= at.store
  }

  ghost predicate RevokeAllOrdered(at: RevokeAllTimes) {
    && at.active <= at.end
    && forall j :: at.active <= at.sets(j).ttl <= at.sets(j).store <= at.end
  }

  // ---------------------------------------------------------------- tables

  predicate IsActive(s: Session, userId: string, t: int) {
    s.userId == userId && !s.isRevoked && s.expiresAt > t
  }

  ghost function ActiveJtis(sessions: map<string, Session>, userId: string, t: int): set<string> {
    set j | j in sessions && IsActive(sessions[j], userId, t)
  }

  ghost function RevokeSessions(sessions: map<string, Session>, js: set<string>): map<string, Session> {
    map j | j in sessions :: if j in js then sessions[j].(isRevoked := true) else sessions[j]
  }

  ghost function SessionsOf(sessions: map<string, Session>, userId: string): set<string> {
    set j | j in sessions && sessions[j].userId == userId
  }

  ghost function RevokeTokens(tokens: map<string, RefreshToken>, rs: set<string>): map<string, RefreshToken> {
    map r | r in tokens :: if r in rs then tokens[r].(isRevoked := true) else tokens[r]
  }

  ghost function TokensOfSession(tokens: map<string, RefreshToken>, sessionId: string): set<string> {
    set r | r in tokens && tokens[r].sessionId == sessionId
  }

  ghost function TokensOfUser(tokens: map<string, RefreshToken>, userId: string): set<string> {
    set r | r in tokens && tokens[r].userId == userId
  }

  // ------------------------------------------------------------- blacklist

  /** Seconds left until `expiresAt`, rounded up, never negative. */
  function RemainingTtl(expiresAt: int, t: int): (ttl: int)
    ensures ttl >= 0
    ensures expiresAt <= t + ttl * 1000
    ensures ttl > 0 ==> t + ttl * 1000 < expiresAt + 1000
  {
    Max(0, CeilDiv(expiresAt - t, 1000))
  }

  const REVOKED := Text("revoked")

  /** The entries written for the jtis of `ttls` that have a positive TTL, each at instant `stored(jti)`. */
  ghost function Entries(ttls: map<string, int>, stored: string -> int): map<string, Entry> {
    map j | j in ttls && ttls[j] > 0 :: Entry(REVOKED, At(stored(j) + ttls[j] * 1000))
  }

  ghost function BlacklistAll(cache: Store, ttls: map<string, int>, stored: string -> int): Store {
    cache.(blacklist := cache.blacklist + Entries(ttls, stored))
  }

  /** One write: nothing when no time is left. */
  function BlacklistOne(cache: Store, jti: string, ttl: int, t: int): Store {
    if ttl > 0 then Put(cache, Blacklist(jti), REVOKED, Some(ttl), t) else cache
  }

  /** Every write at the same instant. */
  function Always(t: int): string -> int {
    _ => t
  }

  lemma EntriesExtend(ttls: map<string, int>, jti: string, ttl: int, stored: string -> int)
    requires jti !in ttls
    ensures Entries(ttls[jti := ttl], stored) ==
      if ttl > 0 then Entries(ttls, stored)[jti := Entry(REVOKED, At(stored(jti) + ttl * 1000))] else Entries(ttls, stored)
  {
    var more := ttls[jti := ttl];
    assert forall j :: j in ttls ==> j != jti && more[j] == ttls[j];
  }

  /** Writing one more jti after the others is the bulk write with that jti added. */
  lemma BlacklistExtend(cache: Store, ttls: map<string, int>, jti: string, ttl: int, stored: string -> int)
    requires jti !in ttls
    ensures BlacklistAll(cache, ttls[jti := ttl], stored) == BlacklistOne(BlacklistAll(cache, ttls, stored), jti, ttl, stored(jti))
  {
    EntriesExtend(ttls, jti, ttl, stored);
    var m := Entries(ttls, stored);
    var e := Entry(REVOKED, At(stored(jti) + ttl * 1000));
    assert cache.blacklist + m[jti := e] == (cache.blacklist + m)[jti := e];
  }

  lemma BlacklistNothing(cache: Store, stored: string -> int)
    ensures BlacklistAll(cache, map[], stored) == cache
  {
    assert BlacklistAll(cache, map[], stored).blacklist == cache.blacklist;
  }

  // ------------------------------------------------------------ middleware

  /** `jwt.verify` on a genuine token: it has expired once the clock, in whole seconds, reaches `exp`. */
  predicate Unexpired(c: Claims, t: int) {
    t / 1000 < c.exp
  }

  /** The decision of the middleware on a genuine token: verified at one instant, looked up on the blacklist at a later one. */
  predicate Accepts(cache: Store, c: Claims, verified: int, lookup: int) {
    Unexpired(c, verified) && !Exists(cache, Blacklist(c.jti), lookup)
  }

  // ----------------------------------------------------------------- steps

  datatype Grant = Grant(access: Claims, refresh: string)

  function SignedClaims(cfg: Config, userId: string, ids: FreshIds, at: OpenTimes): Claims {
    Claims(userId, ids.jti, at.sign / 1000, at.sign / 1000 + cfg.accessTtl)
  }

  /** A new session with its access token and refresh token. */
  function Open(cfg: Config, w: World, userId: string, ids: FreshIds, at: OpenTimes): World {
    w.(now := at.session,
       sessions := w.sessions[ids.jti := Session(ids.sessionId, userId, at.session + cfg.accessTtl * 1000, false)],
       tokens := w.tokens[ids.refresh := RefreshToken(userId, ids.sessionId, at.refresh + cfg.refreshTtl * 1000, false)],
       issued := w.issued[ids.jti := SignedClaims(cfg, userId, ids, at)])
  }

  function Register(cfg: Config, w: World, email: string, userId: string, ids: FreshIds, at: OpenTimes)
    : (World, Result<Grant, AuthError>)
  {
    if email in w.users then (w.(now := at.session), Err(EmailTaken))
    else
      (Open(cfg, w.(users := w.users[email := userId]), userId, ids, at),
       Ok(Grant(SignedClaims(cfg, userId, ids, at), ids.refresh)))
  }

  function Login(cfg: Config, w: World, email: string, passwordOk: bool, ids: FreshIds, at: OpenTimes)
    : (World, Result<Grant, AuthError>)
  {
    if email !in w.users || !passwordOk then (w.(now := at.session), Err(InvalidCredentials))
    else
      (Open(cfg, w, w.users[email], ids, at),
       Ok(Grant(SignedClaims(cfg, w.users[email], ids, at), ids.refresh)))
  }

  /** The active sessions of the token's user that carry the token's session id. */
  ghost function RefreshedJtis(w: World, rec: RefreshToken, t: int): set<string> {
    set j | j in w.sessions && IsActive(w.sessions[j], rec.userId, t) && w.sessions[j].id == rec.sessionId
  }

  /** What an exchange blacklists: the session found, for the time it has left. */
  ghost function RetireTtls(w: World, rec: RefreshToken, at: RefreshTimes): map<string, int> {
    map j | j in RefreshedJtis(w, rec, at.active) :: RemainingTtl(w.sessions[j].expiresAt, at.ttl)
  }

  /** A consumed refresh token and everything that goes with it. */
  ghost function Retire(w: World, token: string, at: RefreshTimes): World
    requires token in w.tokens
  {
    var rec := w.tokens[token];
    w.(now := at.open.session,
       sessions := RevokeSessions(w.sessions, RefreshedJtis(w, rec, at.active)),
       tokens := RevokeTokens(w.tokens, {token} + TokensOfSession(w.tokens, rec.sessionId)),
       cache := BlacklistAll(w.cache, RetireTtls(w, rec, at), Always(at.store)))
  }

  ghost function RefreshError(w: World, token: string, t: int): Option<AuthError> {
    if token !in w.tokens then Some(InvalidRefreshToken)
    else if w.tokens[token].isRevoked then Some(RefreshTokenRevoked)
    else if w.tokens[token].expiresAt < t then Some(RefreshTokenExpired)
    else None
  }

  ghost function Refresh(cfg: Config, w: World, token: string, ids: FreshIds, at: RefreshTimes)
    : (World, Result<Grant, AuthError>)
  {
    var e := RefreshError(w, token, at.check);
    if e.Some? then (w.(now := at.open.session), Err(e.value))
    else
      var user := w.tokens[token].userId;
      if user !in w.users.Values then (Retire(w, token, at), Err(UserNotFound))
      else
        (Open(cfg, Retire(w, token, at), user, ids, at.open),
         Ok(Grant(SignedClaims(cfg, user, ids, at.open), ids.refresh)))
  }

  /** What a single revocation blacklists: nothing when the jti is on the blacklist already. */
  function RevokeTtls(cache: Store, c: Claims, at: RevokeTimes): map<string, int> {
    if Exists(cache, Blacklist(c.jti), at.lookup) then map[]
    else map[c.jti := Max(0, c.exp - at.ttl / 1000)]
  }

  /** Revocation of one session, from the claims read out of the presented token. */
  ghost function Revoke(w: World, c: Claims, userId: string, at: RevokeTimes): (World, Result<(), AuthError>) {
    if c.jti !in w.sessions then (w.(now := at.store), Err(SessionNotFound))
    else if w.sessions[c.jti].userId != userId then (w.(now := at.store), Err(NotSessionOwner))
    else
      var ttls := RevokeTtls(w.cache, c, at);
      (w.(now := at.store,
          sessions := RevokeSessions(w.sessions, {c.jti}),
          tokens := RevokeTokens(w.tokens, TokensOfSession(w.tokens, w.sessions[c.jti].id)),
          cache := BlacklistAll(w.cache, ttls, Always(at.store))),
       Ok(()))
  }

  /** What a bulk revocation blacklists: each session for the time it has left at its own instant. */
  ghost function TtlsOf(sessions: map<string, Session>, js: set<string>, sets: string -> SetTimes): map<string, int> {
    map j | j in js && j in sessions :: RemainingTtl(sessions[j].expiresAt, sets(j).ttl)
  }

  function StoredAt(sets: string -> SetTimes): string -> int {
    j => sets(j).store
  }

  ghost function RevokeAll(w: World, userId: string, at: RevokeAllTimes): (World, nat) {
    (w.(now := at.end,
        sessions := RevokeSessions(w.sessions, SessionsOf(w.sessions, userId)),
        tokens := RevokeTokens(w.tokens, TokensOfUser(w.tokens, userId)),
        cache := BlacklistAll(w.cache, TtlsOf(w.sessions, ActiveJtis(w.sessions, userId, at.active), at.sets), StoredAt(at.sets))),
     |set j | j in w.sessions && w.sessions[j].userId == userId && !w.sessions[j].isRevoked|)
  }

  // ------------------------------------------------------------------ runs

  /** `OtherTraffic` is any write or removal by the other services on their own Redis keys. */
  datatype Event =
    | DoRegister(email: string, userId: string, ids: FreshIds, at: OpenTimes)
    | DoLogin(email: string, passwordOk: bool, ids: FreshIds, at: OpenTimes)
    | DoRefresh(token: string, ids: FreshIds, rat: RefreshTimes)
    | DoRevoke(claims: Claims, caller: string, vat: RevokeTimes)
    | DoRevokeAll(user: string, aat: RevokeAllTimes)
    | OtherTraffic(key: Key, entry: Option<Entry>, t: int)

  ghost predicate FreshFor(w: World, ids: FreshIds) {
    && ids.jti !in w.issued
    && ids.refresh !in w.tokens
    && (forall j :: j in w.sessions ==> w.sessions[j].id != ids.sessionId)
    && (forall r :: r in w.tokens ==> w.tokens[r].sessionId != ids.sessionId)
  }

  /**
   The clock never goes back, identifiers are fresh, and the token given to a
   revocation is one this server signed: the controller takes it from a request
   the middleware has just let through.
   */
  ghost predicate Enabled(w: World, e: Event) {
    match e
    case DoRegister(_, userId, ids, at) =>
      w.now <= at.sign && OpenOrdered(at) && FreshFor(w, ids) && userId !in w.users.Values
    case DoLogin(_, _, ids, at) => w.now <= at.sign && OpenOrdered(at) && FreshFor(w, ids)
    case DoRefresh(_, ids, at) => w.now <= at.check && RefreshOrdered(at) && FreshFor(w, ids)
    case DoRevoke(c, _, at) => w.now <= at.lookup && RevokeOrdered(at) && c.jti in w.issued && w.issued[c.jti] == c
    case DoRevokeAll(_, at) => w.now <= at.active && RevokeAllOrdered(at)
    case OtherTraffic(key, _, t) => w.now <= t && !key.Blacklist?
  }

  ghost function Step(cfg: Config, w: World, e: Event): World {
    match e
    case DoRegister(email, userId, ids, at) => Register(cfg, w, email, userId, ids, at).0
    case DoLogin(email, ok, ids, at) => Login(cfg, w, email, ok, ids, at).0
    case DoRefresh(token, ids, at) => Refresh(cfg, w, token, ids, at).0
    case DoRevoke(c, caller, at) => Revoke(w, c, caller, at).0
    case DoRevokeAll(user, at) => RevokeAll(w, user, at).0
    case OtherTraffic(key, entry, t) =>
      w.(now := t, cache := if entry.Some? then WithEntry(w.cache, key, entry.value) else Remove(w.cache, key))
  }

  ghost function Run(cfg: Config, w: World, es: seq<Event>): World
    decreases |es|
  {
    if es == [] then w else Run(cfg, Step(cfg, w, es[0]), es[1..])
  }

  ghost predicate CanRun(cfg: Config, w: World, es: seq<Event>)
    decreases |es|
  {
    es == [] || (Enabled(w, es[0]) && CanRun(cfg, Step(cfg, w, es[0]), es[1..]))
  }
}
