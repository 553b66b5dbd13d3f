/** Two short runs in which sessions do less than one would hope, one for each condition proved in `AuthRotation`. */
module AuthExamples {
  import opened Prelude
  import opened Cache
  import opened AuthModel
  import opened AuthInvariant
  import opened AuthRevocation
  import opened AuthRotation

  const HOUR := Config(3600, 7200)
  const AT_ZERO := OpenTimes(0, 0, 0)
  ghost const REGISTERED := Step(HOUR, INITIAL, DoRegister("e", "u", FreshIds("j", "s", "r"), AT_ZERO))

  lemma RegisteredIsReachable()
    ensures CanRun(HOUR, INITIAL, [DoRegister("e", "u", FreshIds("j", "s", "r"), AT_ZERO)])
    ensures Run(HOUR, INITIAL, [DoRegister("e", "u", FreshIds("j", "s", "r"), AT_ZERO)]) == REGISTERED
    ensures REGISTERED.issued["j"] == Claims("u", "j", 0, 3600) && REGISTERED.now == 0
  {
    var es := [DoRegister("e", "u", FreshIds("j", "s", "r"), AT_ZERO)];
    assert es[1..] == [];
  }

  const EXCHANGE := DoRefresh("r", FreshIds("j2", "s2", "r2"), RefreshTimes(0, 0, 0, 0, AT_ZERO))

  /** The one session and its one token. */
  lemma RegisteredRows()
    ensures REGISTERED.sessions == map["j" := Session("s", "u", 3600000, false)]
    ensures REGISTERED.tokens == map["r" := RefreshToken("u", "s", 7200000, false)]
    ensures REGISTERED.users == map["e" := "u"] && REGISTERED.issued.Keys == {"j"} && REGISTERED.now == 0
  {
  }

  lemma RegisteredInv()
    ensures Inv(REGISTERED)
  {
    RegisteredIsReachable();
    RunKeeps(HOUR, INITIAL, [DoRegister("e", "u", FreshIds("j", "s", "r"), AT_ZERO)]);
  }

  lemma ExchangeSucceeds()
    ensures Enabled(REGISTERED, EXCHANGE) && LiveTokens(REGISTERED, "u") == {"r"}
    ensures Refresh(HOUR, REGISTERED, "r", EXCHANGE.ids, EXCHANGE.rat).1.Ok?
  {
    RegisteredRows();
    assert REGISTERED.users["e"] == "u";
  }

  /** Refresh tokens, sessions and signed tokens after the exchange have the old names or those of the new pair. */
  lemma ExchangedNames()
    ensures var w := Step(HOUR, REGISTERED, EXCHANGE);
      && w.tokens.Keys == {"r", "r2"} && w.issued.Keys == {"j", "j2"} && w.sessions.Keys == {"j", "j2"}
      && w.tokens["r"].userId == "u" && w.tokens["r"].sessionId == "s" && w.tokens["r2"].sessionId == "s2"
      && w.sessions["j"].id == "s" && w.sessions["j2"].id == "s2"
  {
    RegisteredRows();
    ExchangeSucceeds();
    assert Step(HOUR, REGISTERED, EXCHANGE) == Open(HOUR, Retire(REGISTERED, "r", EXCHANGE.rat), "u", EXCHANGE.ids, AT_ZERO);
  }

  lemma ThirdIsFresh(w: World)
    requires w.tokens.Keys == {"r", "r2"} && w.issued.Keys == {"j", "j2"} && w.sessions.Keys == {"j", "j2"}
    requires w.tokens["r"].sessionId == "s" && w.tokens["r2"].sessionId == "s2"
    requires w.sessions["j"].id == "s" && w.sessions["j2"].id == "s2"
    ensures FreshFor(w, FreshIds("j3", "s3", "r3"))
  {
  }

  lemma ExchangedLive()
    ensures Inv(Step(HOUR, REGISTERED, EXCHANGE)) && LiveTokens(Step(HOUR, REGISTERED, EXCHANGE), "u") == {"r2"}
  {
    RegisteredRows();
    RegisteredInv();
    ExchangeSucceeds();
    StepKeeps(HOUR, REGISTERED, EXCHANGE);
    RefreshReplacesOneLiveToken(HOUR, REGISTERED, "r", EXCHANGE.ids, EXCHANGE.rat, "u");
  }

  lemma LateMakesTwo(w: World)
    requires Inv(w) && "r" in w.tokens && w.tokens["r"].userId == "u" && FreshFor(w, FreshIds("j3", "s3", "r3"))
    requires LiveTokens(w, "u") == {"r2"}
    ensures LiveTokens(LateRefresh(HOUR, w, "r", FreshIds("j3", "s3", "r3"), EXCHANGE.rat), "u") == {"r2", "r3"}
  {
    LateRefreshLive(HOUR, w, "r", FreshIds("j3", "s3", "r3"), EXCHANGE.rat);
  }

  /** The writes of a second exchange of one token, after those of the first, leave its user with two live tokens. */
  lemma OverlapLeavesTwoLive() returns (w: World, v: World)
    ensures w == Step(HOUR, REGISTERED, EXCHANGE) && Enabled(REGISTERED, EXCHANGE) && "r" in w.tokens
    ensures v == LateRefresh(HOUR, w, "r", FreshIds("j3", "s3", "r3"), EXCHANGE.rat)
    ensures LiveTokens(w, "u") == {"r2"} && LiveTokens(v, "u") == {"r2", "r3"}
  {
    w := Step(HOUR, REGISTERED, EXCHANGE);
    ExchangeSucceeds();
    ExchangedLive();
    ExchangedNames();
    ThirdIsFresh(w);
    LateMakesTwo(w);
    v := LateRefresh(HOUR, w, "r", FreshIds("j3", "s3", "r3"), EXCHANGE.rat);
  }

  /** Revoked with claims that name an earlier expiry, the signed token is accepted again a second later. */
  lemma RevokedButAccepted()
    ensures var forged := Claims("u", "j", 0, 1);
      var v := Revoke(REGISTERED, forged, "u", RevokeTimes(0, 0, 0)).0;
      && v.sessions["j"].isRevoked && !Accepts(v.cache, REGISTERED.issued["j"], 999, 999)
      && Accepts(v.cache, REGISTERED.issued["j"], 1000, 1000)
  {
    RegisteredIsReachable();
    RevokeWrites(REGISTERED.cache, Claims("u", "j", 0, 1), RevokeTimes(0, 0, 0));
  }
}
