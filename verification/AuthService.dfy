/** `SessionRepository` and `AuthService` as they change their stores, proved against `AuthModel`. */
module AuthService {
  import opened Prelude
  import opened Cache
  import opened AuthModel

  datatype SessionRow = SessionRow(jti: string, row: Session)

  ghost function Jtis(rows: seq<SessionRow>): set<string> {
    set r | r in rows :: r.jti
  }

  class SessionRepository {
    var sessions: map<string, Session>
    var tokens: map<string, RefreshToken>

    constructor ()
      ensures sessions == map[] && tokens == map[]
    {
      sessions, tokens := map[], map[];
    }

    method CreateSession(jti: string, id: string, userId: string, expiresAt: int)
      modifies this`sessions
      ensures sessions == old(sessions)[jti := Session(id, userId, expiresAt, false)]
    {
      sessions := sessions[jti := Session(id, userId, expiresAt, false)];
    }

    method RevokeSessionByJti(jti: string)
      requires jti in sessions
      modifies this`sessions
      ensures sessions == RevokeSessions(old(sessions), {jti})
    {
      sessions := sessions[jti := sessions[jti].(isRevoked := true)];
    }

    method RevokeAllSessionsByUserId(userId: string) returns (count: nat)
      modifies this`sessions
      ensures sessions == RevokeSessions(old(sessions), SessionsOf(old(sessions), userId))
      ensures count == |set j | j in old(sessions) && old(sessions)[j].userId == userId && !old(sessions)[j].isRevoked|
    {
      var matching := set j | j in sessions && sessions[j].userId == userId && !sessions[j].isRevoked;
      sessions := map j | j in sessions :: if j in matching then sessions[j].(isRevoked := true) else sessions[j];
      count := |matching|;
    }

    /** The active sessions in some order; the query's order by creation time plays no part. */
    method FindActiveSessionsByUserId(userId: string, t: int) returns (rows: seq<SessionRow>)
      ensures Jtis(rows) == ActiveJtis(sessions, userId, t)
      ensures forall r :: r in rows ==> r.jti in sessions && r.row == sessions[r.jti]
      ensures forall i, k :: 0 <= i < k < |rows| ==> rows[i].jti != rows[k].jti
    {
      rows := [];
      var todo := sessions.Keys;
      while todo != {}
        invariant todo <= sessions.Keys
        invariant Jtis(rows) == ActiveJtis(sessions, userId, t) - todo
        invariant forall r :: r in rows ==> r.jti in Jtis(rows) && r.row == sessions[r.jti]
        invariant forall i, k :: 0 <= i < k < |rows| ==> rows[i].jti != rows[k].jti
        decreases todo
      {
        var j :| j in todo;
        todo := todo - {j};
        if IsActive(sessions[j], userId, t) {
          ghost var before := rows;
          assert j !in Jtis(before);
          rows := rows + [SessionRow(j, sessions[j])];
          assert Jtis(rows) == Jtis(before) + {j};
          assert forall i :: 0 <= i < |before| ==> before[i] in before && rows[i] == before[i];
        }
      }
    }

    method CreateRefreshToken(token: string, userId: string, sessionId: string, expiresAt: int)
      modifies this`tokens
      ensures tokens == old(tokens)[token := RefreshToken(userId, sessionId, expiresAt, false)]
    {
      tokens := tokens[token := RefreshToken(userId, sessionId, expiresAt, false)];
    }

    method RevokeRefreshToken(token: string)
      requires token in tokens
      modifies this`tokens
      ensures tokens == RevokeTokens(old(tokens), {token})
    {
      tokens := tokens[token := tokens[token].(isRevoked := true)];
    }

    method RevokeRefreshTokensBySessionId(sessionId: string) returns (count: nat)
      modifies this`tokens
      ensures tokens == RevokeTokens(old(tokens), TokensOfSession(old(tokens), sessionId))
      ensures count == |set r | r in TokensOfSession(old(tokens), sessionId) && !old(tokens)[r].isRevoked|
    {
      var matching := set r | r in tokens && tokens[r].sessionId == sessionId && !tokens[r].isRevoked;
      tokens := map r | r in tokens :: if r in matching then tokens[r].(isRevoked := true) else tokens[r];
      assert matching == set r | r in TokensOfSession(old(tokens), sessionId) && !old(tokens)[r].isRevoked;
      count := |matching|;
    }

    method RevokeRefreshTokensByUserId(userId: string) returns (count: nat)
      modifies this`tokens
      ensures tokens == RevokeTokens(old(tokens), TokensOfUser(old(tokens), userId))
      ensures count == |set r | r in TokensOfUser(old(tokens), userId) && !old(tokens)[r].isRevoked|
    {
      var matching := set r | r in tokens && tokens[r].userId == userId && !tokens[r].isRevoked;
      tokens := map r | r in tokens :: if r in matching then tokens[r].(isRevoked := true) else tokens[r];
      assert matching == set r | r in TokensOfUser(old(tokens), userId) && !old(tokens)[r].isRevoked;
      count := |matching|;
    }
  }

  /** When the query finds the token's session, that is the one retired. */
  lemma FoundIsStale(w: World, rows: seq<SessionRow>, i: nat, rec: RefreshToken, at: RefreshTimes)
    requires forall i, j :: i in w.sessions && j in w.sessions && w.sessions[i].id == w.sessions[j].id ==> i == j
    requires Jtis(rows) == ActiveJtis(w.sessions, rec.userId, at.active)
    requires forall r :: r in rows ==> r.jti in w.sessions && r.row == w.sessions[r.jti]
    requires i < |rows| && rows[i].row.id == rec.sessionId
    ensures rows[i].jti in w.sessions && rows[i].row == w.sessions[rows[i].jti]
    ensures RefreshedJtis(w, rec, at.active) == {rows[i].jti}
    ensures BlacklistAll(w.cache, RetireTtls(w, rec, at), Always(at.store))
         == BlacklistOne(w.cache, rows[i].jti, RemainingTtl(rows[i].row.expiresAt, at.ttl), at.store)
  {
    assert rows[i] in rows && rows[i].jti in Jtis(rows);
    var ttl := RemainingTtl(rows[i].row.expiresAt, at.ttl);
    BlacklistNothing(w.cache, Always(at.store));
    BlacklistExtend(w.cache, map[], rows[i].jti, ttl, Always(at.store));
    assert RetireTtls(w, rec, at) == map[][rows[i].jti := ttl];
  }

  /** When it finds none, nothing is retired. */
  lemma NoneIsStale(w: World, rows: seq<SessionRow>, rec: RefreshToken, at: RefreshTimes)
    requires Jtis(rows) == ActiveJtis(w.sessions, rec.userId, at.active)
    requires forall r :: r in rows ==> r.jti in w.sessions && r.row == w.sessions[r.jti] && r.row.id != rec.sessionId
    ensures RevokeSessions(w.sessions, RefreshedJtis(w, rec, at.active)) == w.sessions
    ensures BlacklistAll(w.cache, RetireTtls(w, rec, at), Always(at.store)) == w.cache
  {
    forall j | j in ActiveJtis(w.sessions, rec.userId, at.active)
      ensures w.sessions[j].id != rec.sessionId
    {
      var r :| r in rows && r.jti == j;
    }
    BlacklistNothing(w.cache, Always(at.store));
    assert RetireTtls(w, rec, at) == map[];
    assert RevokeSessions(w.sessions, {}) == w.sessions;
  }

  class AuthService {
    const cfg: Config
    const repo: SessionRepository
    const cache: CacheProvider
    var users: map<string, string>
    ghost var now: int
    ghost var issued: map<string, Claims>

    ghost function Model(): World
      reads this, repo, cache
    {
      World(now, users, repo.sessions, repo.tokens, cache.store, issued)
    }

    constructor (cfg: Config)
      ensures Model() == INITIAL && this.cfg == cfg && fresh(repo) && fresh(cache)
    {
      this.cfg := cfg;
      repo := new SessionRepository();
      cache := new CacheProvider();
      users, now, issued := map[], 0, map[];
    }

    method OpenSession(userId: string, ids: FreshIds, at: OpenTimes) returns (g: Grant)
      modifies this`now, this`issued, repo
      ensures Model() == Open(cfg, old(Model()), userId, ids, at)
      ensures g == Grant(SignedClaims(cfg, userId, ids, at), ids.refresh)
    {
      var iat := at.sign / 1000;
      var claims := Claims(userId, ids.jti, iat, iat + cfg.accessTtl);
      issued := issued[ids.jti := claims];
      var refreshExpiresAt := at.refresh + cfg.refreshTtl * 1000;
      repo.CreateSession(ids.jti, ids.sessionId, userId, at.session + cfg.accessTtl * 1000);
      repo.CreateRefreshToken(ids.refresh, userId, ids.sessionId, refreshExpiresAt);
      now := at.session;
      g := Grant(claims, ids.refresh);
    }

    /** `normalize` lower-cases and trims: accounts are keyed by what it makes of an address. */
    method Register(address: string, normalize: string -> string, userId: string, ids: FreshIds, at: OpenTimes)
        returns (r: Result<Grant, AuthError>)
      modifies this, repo
      ensures (Model(), r) == AuthModel.Register(cfg, old(Model()), normalize(address), userId, ids, at)
    {
      var email := normalize(address);
      if email in users {
        now := at.session;
        return Err(EmailTaken);
      }
      users := users[email := userId];
      var g := OpenSession(userId, ids, at);
      r := Ok(g);
    }

    method Login(address: string, normalize: string -> string, passwordOk: bool, ids: FreshIds, at: OpenTimes)
        returns (r: Result<Grant, AuthError>)
      modifies this, repo
      ensures (Model(), r) == AuthModel.Login(cfg, old(Model()), normalize(address), passwordOk, ids, at)
    {
      var email := normalize(address);
      if email !in users {
        now := at.session;
        return Err(InvalidCredentials);
      }
      if !passwordOk {
        now := at.session;
        return Err(InvalidCredentials);
      }
      var g := OpenSession(users[email], ids, at);
      r := Ok(g);
    }

    /** Blacklist and revoke the session the refresh token came with, if the query still finds it active. */
    method RetireSession(rec: RefreshToken, at: RefreshTimes)
      requires forall i, j :: i in repo.sessions && j in repo.sessions && repo.sessions[i].id == repo.sessions[j].id ==> i == j
      modifies repo`sessions, cache
      ensures repo.sessions == RevokeSessions(old(repo.sessions), RefreshedJtis(old(Model()), rec, at.active))
      ensures cache.store == BlacklistAll(old(cache.store), RetireTtls(old(Model()), rec, at), Always(at.store))
    {
      var rows := repo.FindActiveSessionsByUserId(rec.userId, at.active);
      var i := 0;
      while i < |rows| && rows[i].row.id != rec.sessionId
        invariant 0 <= i <= |rows|
        invariant forall k :: 0 <= k < i ==> rows[k].row.id != rec.sessionId
      {
        i := i + 1;
      }
      if i < |rows| {
        var jti := rows[i].jti;
        var ttl := RemainingTtl(rows[i].row.expiresAt, at.ttl);
        FoundIsStale(Model(), rows, i, rec, at);
        if ttl > 0 {
          cache.Set(Blacklist(jti), REVOKED, Some(ttl), at.store);
        }
        repo.RevokeSessionByJti(jti);
      } else {
        NoneIsStale(Model(), rows, rec, at);
      }
    }

    method Refresh(token: string, ids: FreshIds, at: RefreshTimes) returns (r: Result<Grant, AuthError>)
      requires forall i, j :: i in repo.sessions && j in repo.sessions && repo.sessions[i].id == repo.sessions[j].id ==> i == j
      modifies this, repo, cache
      ensures (Model(), r) == AuthModel.Refresh(cfg, old(Model()), token, ids, at)
    {
      now := at.open.session;
      if token !in repo.tokens {
        return Err(InvalidRefreshToken);
      }
      var rec := repo.tokens[token];
      if rec.isRevoked {
        return Err(RefreshTokenRevoked);
      }
      if rec.expiresAt < at.check {
        return Err(RefreshTokenExpired);
      }
      repo.RevokeRefreshToken(token);
      RetireSession(rec, at);
      var _ := repo.RevokeRefreshTokensBySessionId(rec.sessionId);
      assert Model() == Retire(old(Model()), token, at);
      if rec.userId !in users.Values {
        return Err(UserNotFound);
      }
      var g := OpenSession(rec.userId, ids, at.open);
      r := Ok(g);
    }

    method BlacklistUnlessPresent(c: Claims, at: RevokeTimes)
      modifies cache
      ensures cache.store == BlacklistAll(old(cache.store), RevokeTtls(old(cache.store), c, at), Always(at.store))
    {
      var already := cache.Has(Blacklist(c.jti), at.lookup);
      BlacklistNothing(cache.store, Always(at.store));
      if !already {
        var ttl := Max(0, c.exp - at.ttl / 1000);
        BlacklistExtend(cache.store, map[], c.jti, ttl, Always(at.store));
        if ttl > 0 {
          cache.Set(Blacklist(c.jti), REVOKED, Some(ttl), at.store);
        }
      }
    }

    /** `presented` is what the token decodes to, verified or not; nothing when it is not a token at all. */
    method RevokeSession(presented: Option<Claims>, userId: string, at: RevokeTimes) returns (r: Result<(), AuthError>)
      modifies this`now, repo, cache
      ensures presented.None? ==> r == Err(InvalidTokenFormat) && Model() == old(Model())
      ensures presented.Some? ==> (Model(), r) == AuthModel.Revoke(old(Model()), presented.value, userId, at)
    {
      if presented.None? {
        return Err(InvalidTokenFormat);
      }
      var c := presented.value;
      now := at.store;
      if c.jti !in repo.sessions {
        return Err(SessionNotFound);
      }
      var session := repo.sessions[c.jti];
      if session.userId != userId {
        return Err(NotSessionOwner);
      }
      BlacklistUnlessPresent(c, at);
      repo.RevokeSessionByJti(c.jti);
      var _ := repo.RevokeRefreshTokensBySessionId(session.id);
      r := Ok(());
    }

    lemma TtlsMore(sessions: map<string, Session>, js: set<string>, j: string, sets: string -> SetTimes)
      requires j in sessions && j !in js
      ensures TtlsOf(sessions, js + {j}, sets) == TtlsOf(sessions, js, sets)[j := RemainingTtl(sessions[j].expiresAt, sets(j).ttl)]
    {
    }

    lemma JtisMore(rows: seq<SessionRow>, r: SessionRow)
      ensures Jtis(rows + [r]) == Jtis(rows) + {r.jti}
    {
      assert forall x :: x in rows + [r] <==> x in rows || x == r;
    }

    /** One turn of the loop below. */
    lemma RowsMore(store: Store, sessions: map<string, Session>, rows: seq<SessionRow>, i: nat, sets: string -> SetTimes)
      requires i < |rows| && rows[i].jti in sessions && rows[i].row == sessions[rows[i].jti]
      requires forall k :: 0 <= k < i ==> rows[k].jti != rows[i].jti
      ensures var j := rows[i].jti;
        BlacklistAll(store, TtlsOf(sessions, Jtis(rows[..i + 1]), sets), StoredAt(sets))
        == BlacklistOne(BlacklistAll(store, TtlsOf(sessions, Jtis(rows[..i]), sets), StoredAt(sets)),
                        j, RemainingTtl(rows[i].row.expiresAt, sets(j).ttl), sets(j).store)
    {
      var j, js := rows[i].jti, Jtis(rows[..i]);
      assert rows[..i + 1] == rows[..i] + [rows[i]];
      JtisMore(rows[..i], rows[i]);
      TtlsMore(sessions, js, j, sets);
      BlacklistExtend(store, TtlsOf(sessions, js, sets), j, RemainingTtl(rows[i].row.expiresAt, sets(j).ttl), StoredAt(sets));
    }

    method BlacklistRows(rows: seq<SessionRow>, sets: string -> SetTimes)
      requires forall i, k :: 0 <= i < k < |rows| ==> rows[i].jti != rows[k].jti
      requires forall r :: r in rows ==> r.jti in repo.sessions && r.row == repo.sessions[r.jti]
      modifies cache
      ensures cache.store == BlacklistAll(old(cache.store), TtlsOf(repo.sessions, Jtis(rows), sets), StoredAt(sets))
    {
      assert TtlsOf(repo.sessions, Jtis(rows[..0]), sets) == map[];
      BlacklistNothing(cache.store, StoredAt(sets));
      for i := 0 to |rows|
        invariant cache.store == BlacklistAll(old(cache.store), TtlsOf(repo.sessions, Jtis(rows[..i]), sets), StoredAt(sets))
      {
        var j := rows[i].jti;
        var ttl := RemainingTtl(rows[i].row.expiresAt, sets(j).ttl);
        assert rows[i] in rows;
        RowsMore(old(cache.store), repo.sessions, rows, i, sets);
        if ttl > 0 {
          cache.Set(Blacklist(j), REVOKED, Some(ttl), sets(j).store);
        }
      }
      assert rows[..|rows|] == rows;
    }

    method RevokeAllSessions(userId: string, at: RevokeAllTimes) returns (count: nat)
      modifies this`now, repo, cache
      ensures (Model(), count) == AuthModel.RevokeAll(old(Model()), userId, at)
    {
      var rows := repo.FindActiveSessionsByUserId(userId, at.active);
      BlacklistRows(rows, at.sets);
      count := repo.RevokeAllSessionsByUserId(userId);
      var _ := repo.RevokeRefreshTokensByUserId(userId);
      now := at.end;
    }
  }
}
