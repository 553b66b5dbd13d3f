/** The ordered guards that every protected request passes. */
module AuthMiddleware {
  import opened Prelude
  import opened Cache
  import opened AuthModel
  import opened AuthInvariant
  import opened AuthRevocation

  /** What the signature check makes of a token. */
  datatype Decoded = Forged | Genuine(claims: Claims)

  datatype Rejection =
    | MissingHeader | WrongScheme | EmptyToken
    | ExpiredToken | InvalidSignature | MissingClaims | RevokedToken

  const SCHEME := "Bearer "

  /** The token a header carries, if it carries one. */
  function Presented(header: Option<string>): Option<string> {
    if header.Some? && SCHEME <= header.value && exists c :: c in header.value[|SCHEME|..] && !IsWhiteSpace(c)
    then Some(header.value[|SCHEME|..]) else None
  }

  /** A header carries a token exactly when it is "Bearer ", with one space, before a token that is not all white space. */
  lemma PresentedExact(header: Option<string>, token: string)
    ensures Presented(header) == Some(token) <==>
      header == Some("Bearer " + token) && exists c :: c in token && !IsWhiteSpace(c)
  {
    assert ("Bearer " + token)[7..] == token;
    if header.Some? && SCHEME <= header.value {
      assert header.value == SCHEME + header.value[7..];
    }
  }

  /** When a request gets through: independent of the order of the guards. */
  predicate LetsThrough(cache: Store, header: Option<string>, decode: string -> Decoded, verified: int, lookup: int) {
    && Presented(header).Some?
    && var d := decode(Presented(header).value);
    && d.Genuine? && d.claims.sub != "" && d.claims.jti != ""
    && Accepts(cache, d.claims, verified, lookup)
  }

  method Authenticate(cache: CacheProvider, header: Option<string>, decode: string -> Decoded, verified: int, lookup: int)
    returns (r: Result<Claims, Rejection>)
    ensures r.Ok? <==> LetsThrough(cache.store, header, decode, verified, lookup)
    ensures r.Ok? ==> decode(Presented(header).value) == Genuine(r.value)
    ensures r == Err(MissingHeader) <==> header == None || header == Some("")
    ensures r == Err(InvalidSignature) <==> Presented(header).Some? && decode(Presented(header).value).Forged?
    ensures r == Err(ExpiredToken) <==>
      && Presented(header).Some?
      && var d := decode(Presented(header).value); d.Genuine? && !Unexpired(d.claims, verified)
    ensures r == Err(RevokedToken) <==>
      && Presented(header).Some?
      && var d := decode(Presented(header).value);
      && d.Genuine? && d.claims.sub != "" && d.claims.jti != ""
      && Unexpired(d.claims, verified) && Exists(cache.store, Blacklist(d.claims.jti), lookup)
  {
    if header.None? || header.value == "" {
      return Err(MissingHeader);
    }
    if !(SCHEME <= header.value) {
      return Err(WrongScheme);
    }
    var token := header.value[|SCHEME|..];
    var i := 0;
    while i < |token| && IsWhiteSpace(token[i])
      invariant 0 <= i <= |token|
      invariant forall c :: c in token[..i] ==> IsWhiteSpace(c)
    {
      assert token[..i + 1] == token[..i] + [token[i]];
      i := i + 1;
    }
    if i == |token| {
      assert token[..i] == token;
      return Err(EmptyToken);
    }
    assert token[i] in token;
    var d := decode(token);
    if d.Forged? {
      return Err(InvalidSignature);
    }
    if verified / 1000 >= d.claims.exp {
      return Err(ExpiredToken);
    }
    if d.claims.sub == "" || d.claims.jti == "" {
      return Err(MissingClaims);
    }
    var blacklisted := cache.Has(Blacklist(d.claims.jti), lookup);
    if blacklisted {
      return Err(RevokedToken);
    }
    r := Ok(d.claims);
  }

  /** The header is "Bearer " before a token that is not all white space. */
  predicate Carries(header: Option<string>, token: string) {
    header == Some("Bearer " + token) && exists c :: c in token && !IsWhiteSpace(c)
  }

  /**
   Signatures cannot be forged: what decodes as genuine was signed here. Then,
   after any run, a request gets through exactly when it carries a genuine token with
   subject and name that is unexpired and was never revoked.
   */
  lemma RequestsAreDecidedRight(cfg: Config, es: seq<Event>, header: Option<string>, decode: string -> Decoded, t: int)
    requires CanRun(cfg, INITIAL, es) && Run(cfg, INITIAL, es).now <= t
    requires forall s :: decode(s).Genuine? ==>
      decode(s).claims.jti in Run(cfg, INITIAL, es).issued
      && Run(cfg, INITIAL, es).issued[decode(s).claims.jti] == decode(s).claims
    ensures LetsThrough(Run(cfg, INITIAL, es).cache, header, decode, t, t) <==>
      exists token ::
        && Carries(header, token) && decode(token).Genuine?
        && var c := decode(token).claims;
        && c.sub != "" && c.jti != "" && t < c.exp * 1000
        && c.jti !in RevokedForEver(cfg, INITIAL, {}, es)
  {
    if Presented(header).Some? {
      var token := Presented(header).value;
      PresentedExact(header, token);
      if decode(token).Genuine? {
        ForgetfulDecidesLikePermanent(cfg, es, decode(token).claims.jti, t);
        UnexpiredIsBeforeExpiry(decode(token).claims, t);
      }
    }
    forall token | Carries(header, token)
      ensures Presented(header) == Some(token)
    {
      PresentedExact(header, token);
    }
  }
}
