/** The access/refresh token protocol of the authenticator: issuing both
    kinds of token, the strict and the expiry-tolerant parse, the refresh
    chain and the accept/forbid decision of the `Secure` middleware.
    The clock is the explicit parameter `now` (Unix seconds). */
module Auth {
  import opened Wrappers
  import opened Jwt
  import Configuration

  /** Claims of an access token: the refresh token it embeds, verbatim. */
  datatype AccessTokenClaims = AccessTokenClaims(refreshToken: string, expiresAt: int)

  /** Claims of a refresh token: the user it was issued to. */
  datatype RefreshTokenClaims = RefreshTokenClaims(username: string, expiresAt: int)

  /** The immutable keypair and the two lifespans, in seconds. Nothing
      orders the lifespans: a refresh lifespan no longer than the access
      lifespan, or a negative one, is representable. */
  datatype Authenticator = Authenticator(keys: KeyPair, refreshTokenLifespan: int, accessTokenLifespan: int)

  /** Why a refresh, or the minting inside it, did not produce a token. */
  datatype AuthError =
    | AccessTokenRejected(cause: ParseError)   // "failed to parse access token"
    | RefreshTokenRejected(cause: ParseError)  // "failed to parse refresh token"
    | RefreshTokenNotIssued(signingError: string)     // "failed to create new refresh token"
    | AccessTokenNotIssued(signingError: string)      // the signing error of the new access token, unwrapped

  /** What the middleware does with a request. */
  datatype Decision = Forward | Forbid(status: int)

  const StatusForbidden: int := 403

  /** The payload signed for a refresh token: a `Username` key and `exp`. */
  function RefreshPayload(username: string, exp: int): Payload {
    Payload(Some(username), None, exp)
  }

  /** The payload signed for an access token: a `RefreshToken` key and `exp`. */
  function AccessPayload(refreshToken: string, exp: int): Payload {
    Payload(None, Some(refreshToken), exp)
  }

  /** Decoding a payload into the access claims struct: an absent key stays "". */
  function AccessView(p: Payload): AccessTokenClaims {
    AccessTokenClaims(p.refreshToken.GetOr(""), p.expiresAt)
  }

  /** Decoding a payload into the refresh claims struct: an absent key stays "". */
  function RefreshView(p: Payload): RefreshTokenClaims {
    RefreshTokenClaims(p.username.GetOr(""), p.expiresAt)
  }

  /** What a strict parse of a genuine token carrying `claims` and expiring
      at `exp` returns at `now`. */
  function GenuineVerdict<C>(lib: JwtLibrary, now: int, exp: int, claims: C): Result<C, ParseError> {
    if lib.expired(now, exp) then Failure(Validation({Expired})) else Success(claims)
  }

  /** The authenticator built from the authentication settings once both
      keys are loaded; reading and parsing the PEM files is not modelled. */
  function FromSettings(keys: KeyPair, settings: Configuration.Auth): (a: Authenticator)
    ensures a.keys == keys
    ensures a.refreshTokenLifespan == settings.refreshTokenLifespan
    ensures a.accessTokenLifespan == settings.accessTokenLifespan
  {
    Authenticator(keys, settings.refreshTokenLifespan, settings.accessTokenLifespan)
  }

  /** Mints a refresh token for `username`, expiring `refreshTokenLifespan`
      seconds after `now`. Under a sound library the token parses strictly
      back to exactly these claims until it expires. */
  function NewRefreshToken(lib: JwtLibrary, auth: Authenticator, now: int, username: string): (r: Result<string, string>)
    ensures Sound(lib, auth.keys) && r.Success? ==>
      forall t: int :: ParseRefreshToken(lib, auth, t, r.value) ==
        GenuineVerdict(lib, t, now + auth.refreshTokenLifespan,
                       RefreshTokenClaims(username, now + auth.refreshTokenLifespan))
    ensures SigningTotal(lib, auth.keys) ==> r.Success?
  {
    lib.sign(RefreshPayload(username, now + auth.refreshTokenLifespan), auth.keys.privateKey)
  }

  /** Mints an access token embedding `refreshToken` verbatim, expiring
      `accessTokenLifespan` seconds after `now`. Under a sound library the
      tolerant parse recovers these claims at every instant, and the strict
      parse does so exactly until the token expires. */
  function NewAccessToken(lib: JwtLibrary, auth: Authenticator, now: int, refreshToken: string): (r: Result<string, string>)
    ensures Sound(lib, auth.keys) && r.Success? ==>
      forall t: int ::
        && ParseAccessToken(lib, auth, t, r.value) ==
             Success(AccessTokenClaims(refreshToken, now + auth.accessTokenLifespan))
        && VerifyAccessToken(lib, auth, t, r.value) ==
             GenuineVerdict(lib, t, now + auth.accessTokenLifespan,
                            AccessTokenClaims(refreshToken, now + auth.accessTokenLifespan))
    ensures SigningTotal(lib, auth.keys) ==> r.Success?
  {
    lib.sign(AccessPayload(refreshToken, now + auth.accessTokenLifespan), auth.keys.privateKey)
  }

  /** Strict parse of an access token: any error of the library is returned
      unchanged; without an error the decoded payload is returned as access
      claims. */
  function VerifyAccessToken(lib: JwtLibrary, auth: Authenticator, now: int, raw: string): (r: Result<AccessTokenClaims, ParseError>)
    ensures r.Success? <==> ErrorOf(lib.parse(raw, auth.keys.publicKey, now)).None?
    ensures r.Failure? ==> ErrorOf(lib.parse(raw, auth.keys.publicKey, now)) == Some(r.error)
    ensures r.Success? ==> r.value == AccessView(lib.parse(raw, auth.keys.publicKey, now).payload)
  {
    var outcome := lib.parse(raw, auth.keys.publicKey, now);
    match ErrorOf(outcome)
    case Some(e) => Failure(e)
    case None => Success(AccessView(outcome.payload))
  }

  /** Strict parse of a refresh token, returning the decoded payload as
      refresh claims; refresh tokens are never parsed tolerantly. */
  function ParseRefreshToken(lib: JwtLibrary, auth: Authenticator, now: int, raw: string): (r: Result<RefreshTokenClaims, ParseError>)
    ensures r.Success? <==> ErrorOf(lib.parse(raw, auth.keys.publicKey, now)).None?
    ensures r.Failure? ==> ErrorOf(lib.parse(raw, auth.keys.publicKey, now)) == Some(r.error)
    ensures r.Success? ==> r.value == RefreshView(lib.parse(raw, auth.keys.publicKey, now).payload)
  {
    var outcome := lib.parse(raw, auth.keys.publicKey, now);
    match ErrorOf(outcome)
    case Some(e) => Failure(e)
    case None => Success(RefreshView(outcome.payload))
  }

  /** Expiry-tolerant parse of an access token. It rejects an error that is
      not a validation error, or a validation error whose flag set lacks
      `Expired`; a set holding `Expired` is excused whatever else it holds,
      a bad signature included. So it accepts everything the strict parse
      accepts, with the same claims, plus every `Expired`-flagged token,
      and when it rejects, it rejects with the strict parse's error. */
  function ParseAccessToken(lib: JwtLibrary, auth: Authenticator, now: int, raw: string): (r: Result<AccessTokenClaims, ParseError>)
    ensures var outcome := lib.parse(raw, auth.keys.publicKey, now);
      r.Success? <==> VerifyAccessToken(lib, auth, now, raw).Success? || (outcome.Decoded? && Expired in outcome.flags)
    ensures r.Success? ==>
      var outcome := lib.parse(raw, auth.keys.publicKey, now);
      outcome.Decoded? && r.value == AccessView(outcome.payload)
    ensures VerifyAccessToken(lib, auth, now, raw).Success? ==> r == VerifyAccessToken(lib, auth, now, raw)
    ensures r.Failure? ==> VerifyAccessToken(lib, auth, now, raw) == Failure(r.error)
  {
    match lib.parse(raw, auth.keys.publicKey, now)
    case NonValidationError(m) => Failure(NonValidation(m))
    case Decoded(p, flags) =>
      if flags != {} && Expired !in flags then Failure(Validation(flags))
      else Success(AccessView(p))
  }

  /** Steps 3 and 4 of a refresh: a new refresh token for `username`, then
      a new access token embedding it. Under a sound library the access
      token yields, at every instant, claims expiring `accessTokenLifespan`
      after `now` whose embedded token strictly parses to `username` with
      expiry `now + refreshTokenLifespan`. */
  function IssueTokens(lib: JwtLibrary, auth: Authenticator, now: int, username: string): (r: Result<string, AuthError>)
    ensures Sound(lib, auth.keys) && r.Success? ==>
      forall t: int ::
        && ParseAccessToken(lib, auth, t, r.value).Success?
        && ParseAccessToken(lib, auth, t, r.value).value.expiresAt == now + auth.accessTokenLifespan
        && ParseRefreshToken(lib, auth, t, ParseAccessToken(lib, auth, t, r.value).value.refreshToken) ==
             GenuineVerdict(lib, t, now + auth.refreshTokenLifespan,
                            RefreshTokenClaims(username, now + auth.refreshTokenLifespan))
    ensures r.Failure? ==> r.error.RefreshTokenNotIssued? || r.error.AccessTokenNotIssued?
    ensures SigningTotal(lib, auth.keys) ==> r.Success?
  {
    match NewRefreshToken(lib, auth, now, username)
    case Failure(e) => Failure(RefreshTokenNotIssued(e))
    case Success(refreshToken) =>
      match NewAccessToken(lib, auth, now, refreshToken)
      case Failure(e) => Failure(AccessTokenNotIssued(e))
      case Success(accessToken) => Success(accessToken)
  }

  /** Exchanges an access token, expired or not, for a new one. Nothing is
      issued unless the tolerant parse of the access token and the strict
      parse of the refresh token it embeds both succeed; then the result is
      exactly a fresh issue, at `now`, for the username recovered from the
      embedded refresh token. */
  function RefreshAccessToken(lib: JwtLibrary, auth: Authenticator, now: int, raw: string): (r: Result<string, AuthError>)
    ensures ParseAccessToken(lib, auth, now, raw).Failure? ==>
      r == Failure(AccessTokenRejected(ParseAccessToken(lib, auth, now, raw).error))
    ensures ParseAccessToken(lib, auth, now, raw).Success? ==>
      var embedded := ParseRefreshToken(lib, auth, now, ParseAccessToken(lib, auth, now, raw).value.refreshToken);
      && (embedded.Failure? ==> r == Failure(RefreshTokenRejected(embedded.error)))
      && (embedded.Success? ==> r == IssueTokens(lib, auth, now, embedded.value.username))
    ensures r.Success? ==> ParseAccessToken(lib, auth, now, raw).Success?
  {
    match ParseAccessToken(lib, auth, now, raw)
    case Failure(e) => Failure(AccessTokenRejected(e))
    case Success(accessClaims) =>
      match ParseRefreshToken(lib, auth, now, accessClaims.refreshToken)
      case Failure(e) => Failure(RefreshTokenRejected(e))
      case Success(refreshClaims) => IssueTokens(lib, auth, now, refreshClaims.username)
  }

  /** The decision of the `Secure` middleware for one request: forward to
      the next handler only when the extractor yields a token and the strict
      parse accepts it; otherwise answer 403. */
  function Secure<Request>(lib: JwtLibrary, auth: Authenticator, now: int,
                           extractor: Request -> Result<string, string>, request: Request): (d: Decision)
    ensures d == Forward <==>
      extractor(request).Success? && VerifyAccessToken(lib, auth, now, extractor(request).value).Success?
    ensures d != Forward ==> d == Forbid(StatusForbidden)
  {
    match extractor(request)
    case Failure(_) => Forbid(StatusForbidden)
    case Success(token) =>
      if VerifyAccessToken(lib, auth, now, token).Failure? then Forbid(StatusForbidden)
      else Forward
  }
}
