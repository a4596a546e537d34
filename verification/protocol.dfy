/** Properties of the token protocol that span several calls: the life of
    an issued pair over time, repeated refreshes, rotation, and what the
    `Secure` gate admits. Each lemma states which library laws it relies on. */
module Protocol {
  import opened Wrappers
  import opened Jwt
  import opened Auth
  import Configuration

  /** The access token of a pair issued at `t0` for `username`, read at `t`:
      the tolerant parse always returns its claims, the strict parse accepts
      it exactly while it is unexpired, and a refresh depends on the embedded
      refresh token alone. If that has expired, the refresh is denied,
      whether or not the access token has expired too. Otherwise it equals a
      fresh issue at `t` for the same user. */
  lemma RefreshOfIssuedPair(lib: JwtLibrary, auth: Authenticator, t0: int, username: string, t: int)
    requires Sound(lib, auth.keys)
    requires IssueTokens(lib, auth, t0, username).Success?
    ensures var access := IssueTokens(lib, auth, t0, username).value;
      && ParseAccessToken(lib, auth, t, access).Success?
      && ParseAccessToken(lib, auth, t, access).value.expiresAt == t0 + auth.accessTokenLifespan
      && (VerifyAccessToken(lib, auth, t, access).Success? <==> !lib.expired(t, t0 + auth.accessTokenLifespan))
      && RefreshAccessToken(lib, auth, t, access) ==
           if lib.expired(t, t0 + auth.refreshTokenLifespan)
           then Failure(RefreshTokenRejected(Validation({Expired})))
           else IssueTokens(lib, auth, t, username)
  {
  }

  /** With signing that cannot fail, a refresh of an issued pair succeeds
      exactly when its refresh token has not expired; the access token's
      own expiry plays no part. */
  lemma RefreshSucceedsIffRefreshTokenLive(lib: JwtLibrary, auth: Authenticator, t0: int, username: string, t: int)
    requires Sound(lib, auth.keys) && SigningTotal(lib, auth.keys)
    ensures IssueTokens(lib, auth, t0, username).Success?
    ensures (RefreshAccessToken(lib, auth, t, IssueTokens(lib, auth, t0, username).value).Success?)
      <==> !lib.expired(t, t0 + auth.refreshTokenLifespan)
  {
    RefreshOfIssuedPair(lib, auth, t0, username, t);
  }

  /** A successful refresh hands out a pair for the same user, minted at
      the time of the refresh: its access claims expire `accessTokenLifespan`
      after `t` and its embedded refresh token strictly parses to the
      original username with expiry `t + refreshTokenLifespan`. */
  lemma RefreshKeepsUser(lib: JwtLibrary, auth: Authenticator, t0: int, username: string, t: int, s: int)
    requires Sound(lib, auth.keys)
    requires IssueTokens(lib, auth, t0, username).Success?
    requires RefreshAccessToken(lib, auth, t, IssueTokens(lib, auth, t0, username).value).Success?
    ensures var renewed := RefreshAccessToken(lib, auth, t, IssueTokens(lib, auth, t0, username).value).value;
      && ParseAccessToken(lib, auth, s, renewed).Success?
      && ParseAccessToken(lib, auth, s, renewed).value.expiresAt == t + auth.accessTokenLifespan
      && ParseRefreshToken(lib, auth, s, ParseAccessToken(lib, auth, s, renewed).value.refreshToken) ==
           GenuineVerdict(lib, s, t + auth.refreshTokenLifespan,
                          RefreshTokenClaims(username, t + auth.refreshTokenLifespan))
  {
    RefreshOfIssuedPair(lib, auth, t0, username, t);
  }

  /** Rotation: a refresh in a later (or earlier) second than the original
      issue embeds a refresh token different from the original one. */
  lemma RotationAcrossSeconds(lib: JwtLibrary, auth: Authenticator, t0: int, username: string, t: int)
    requires Sound(lib, auth.keys)
    requires IssueTokens(lib, auth, t0, username).Success?
    requires RefreshAccessToken(lib, auth, t, IssueTokens(lib, auth, t0, username).value).Success?
    requires t != t0
    ensures var access := IssueTokens(lib, auth, t0, username).value;
      var renewed := RefreshAccessToken(lib, auth, t, access).value;
      ParseAccessToken(lib, auth, t, renewed).value.refreshToken != ParseAccessToken(lib, auth, t, access).value.refreshToken
  {
  }

  /** Signing is deterministic, so a refresh within the second of issue
      returns the very same access token, and with it the same refresh
      token: rotation only happens once the clock has moved. */
  lemma NoRotationWithinSecond(lib: JwtLibrary, auth: Authenticator, t0: int, username: string)
    requires Sound(lib, auth.keys)
    requires IssueTokens(lib, auth, t0, username).Success?
    requires !lib.expired(t0, t0 + auth.refreshTokenLifespan)
    ensures RefreshAccessToken(lib, auth, t0, IssueTokens(lib, auth, t0, username).value) == IssueTokens(lib, auth, t0, username)
  {
    RefreshOfIssuedPair(lib, auth, t0, username, t0);
  }

  /** Refreshing a token at each of `times` in turn, stopping at the first
      failure. */
  function RefreshChain(lib: JwtLibrary, auth: Authenticator, token: string, times: seq<int>): Result<string, AuthError>
    decreases |times|
  {
    if |times| == 0 then Success(token)
    else match RefreshAccessToken(lib, auth, times[0], token)
      case Failure(e) => Failure(e)
      case Success(next) => RefreshChain(lib, auth, next, times[1..])
  }

  /** Every refresh in `times` comes before the refresh token issued at the
      previous step (`last` for the first) has expired. */
  ghost predicate RefreshedInTime(lib: JwtLibrary, auth: Authenticator, last: int, times: seq<int>)
    decreases |times|
  {
    |times| == 0 ||
    (!lib.expired(times[0], last + auth.refreshTokenLifespan) && RefreshedInTime(lib, auth, times[0], times[1..]))
  }

  function LastTime(t0: int, times: seq<int>): int {
    if |times| == 0 then t0 else times[|times| - 1]
  }

  /** Sessions slide: a chain of refreshes, each made before the previous
      refresh token expired, ends exactly where a fresh issue at the last
      refresh time would, for the same user, however long the chain. If
      any refresh comes too late, the chain is denied at that step. */
  lemma {:induction false} SlidingSession(lib: JwtLibrary, auth: Authenticator, t0: int, username: string, times: seq<int>)
    requires Sound(lib, auth.keys) && SigningTotal(lib, auth.keys)
    ensures IssueTokens(lib, auth, t0, username).Success?
    ensures RefreshChain(lib, auth, IssueTokens(lib, auth, t0, username).value, times) ==
      if RefreshedInTime(lib, auth, t0, times) then IssueTokens(lib, auth, LastTime(t0, times), username)
      else Failure(RefreshTokenRejected(Validation({Expired})))
    decreases |times|
  {
    if |times| > 0 {
      RefreshOfIssuedPair(lib, auth, t0, username, times[0]);
      SlidingSession(lib, auth, times[0], username, times[1..]);
      assert LastTime(times[0], times[1..]) == LastTime(t0, times);
    }
  }

  /** The gate follows the access token alone: for an issued pair it
      forwards exactly while the access token is unexpired. */
  lemma SecureFollowsAccessExpiry<Request>(lib: JwtLibrary, auth: Authenticator, t0: int, username: string, t: int,
                                           extractor: Request -> Result<string, string>, request: Request)
    requires Sound(lib, auth.keys)
    requires IssueTokens(lib, auth, t0, username).Success?
    requires extractor(request) == Success(IssueTokens(lib, auth, t0, username).value)
    ensures (Secure(lib, auth, t, extractor, request) == Forward)
      <==> !lib.expired(t, t0 + auth.accessTokenLifespan)
  {
    RefreshOfIssuedPair(lib, auth, t0, username, t);
  }

  /** The two claim types are not told apart: a refresh token presented
      as an access token passes the gate for as long as the refresh token
      lives, which is normally longer than any access token. */
  lemma SecureAdmitsRefreshToken<Request>(lib: JwtLibrary, auth: Authenticator, t0: int, username: string, t: int,
                                          extractor: Request -> Result<string, string>, request: Request)
    requires Sound(lib, auth.keys)
    requires NewRefreshToken(lib, auth, t0, username).Success?
    requires extractor(request) == Success(NewRefreshToken(lib, auth, t0, username).value)
    ensures (Secure(lib, auth, t, extractor, request) == Forward)
      <==> !lib.expired(t, t0 + auth.refreshTokenLifespan)
    ensures Secure(lib, auth, t, extractor, request) == Forward ==>
              VerifyAccessToken(lib, auth, t, NewRefreshToken(lib, auth, t0, username).value).value.refreshToken == ""
  {
  }

  /** Whatever access token is presented, even one whose signature fails
      but which is flagged expired, a refresh only succeeds when the
      embedded refresh token was signed with the private key and is live
      at `now`; the result is then a fresh issue for its user. */
  lemma RefreshNeedsGenuineRefreshToken(lib: JwtLibrary, auth: Authenticator, now: int, raw: string)
    requires Sound(lib, auth.keys) && Unforgeable(lib, auth.keys)
    requires RefreshAccessToken(lib, auth, now, raw).Success?
    ensures ParseAccessToken(lib, auth, now, raw).Success?
    ensures var embedded := ParseAccessToken(lib, auth, now, raw).value.refreshToken;
      var p := lib.parse(embedded, auth.keys.publicKey, now).payload;
      && lib.sign(p, auth.keys.privateKey) == Success(embedded)
      && !lib.expired(now, p.expiresAt)
      && RefreshAccessToken(lib, auth, now, raw) == IssueTokens(lib, auth, now, p.username.GetOr(""))
  {
  }

  /** Nothing forces the refresh lifespan to exceed the access lifespan.
      When it is shorter, there is a window in which the access token still
      passes the gate but can no longer be refreshed. */
  lemma ShortRefreshLifespanTolerated(lib: JwtLibrary, auth: Authenticator, t0: int, username: string, t: int)
    requires Sound(lib, auth.keys) && ExpiryBoundary(lib)
    requires IssueTokens(lib, auth, t0, username).Success?
    requires t0 + auth.refreshTokenLifespan < t < t0 + auth.accessTokenLifespan
    ensures VerifyAccessToken(lib, auth, t, IssueTokens(lib, auth, t0, username).value).Success?
    ensures RefreshAccessToken(lib, auth, t, IssueTokens(lib, auth, t0, username).value) ==
              Failure(RefreshTokenRejected(Validation({Expired})))
  {
    RefreshOfIssuedPair(lib, auth, t0, username, t);
  }

  /** With the default lifespans (access 30 s, refresh 180 s) and a pair
      issued to "alice" at 0: at 35 s the access token is refused by the
      gate yet refreshes into a fresh pair; at 200 s the original access
      token can no longer be refreshed. */
  lemma DefaultLifespansScenario<Request>(lib: JwtLibrary, keys: KeyPair,
                                          extractor: Request -> Result<string, string>, request: Request)
    requires Sound(lib, keys) && SigningTotal(lib, keys) && ExpiryBoundary(lib)
    ensures var auth := FromSettings(keys, Configuration.DefaultConfig.auth);
      var access := IssueTokens(lib, auth, 0, "alice").value;
      && VerifyAccessToken(lib, auth, 35, access) == Failure(Validation({Expired}))
      && (extractor(request) == Success(access) ==> Secure(lib, auth, 35, extractor, request) == Forbid(403))
      && RefreshAccessToken(lib, auth, 35, access) == IssueTokens(lib, auth, 35, "alice")
      && RefreshAccessToken(lib, auth, 35, access).Success?
      && RefreshAccessToken(lib, auth, 200, access) == Failure(RefreshTokenRejected(Validation({Expired})))
  {
    var auth := FromSettings(keys, Configuration.DefaultConfig.auth);
    RefreshOfIssuedPair(lib, auth, 0, "alice", 35);
    RefreshOfIssuedPair(lib, auth, 0, "alice", 200);
  }

  /** Validation never looks at the lifespans, so a configuration whose
      refresh lifespan (30 s) is shorter than its access lifespan (180 s)
      is accepted. The authenticator built from it then issues access tokens
      that keep passing the gate after their refresh token has expired, so
      for most of their life they cannot be refreshed. */
  lemma AcceptedSettingsMayInvertLifespans(lib: JwtLibrary, keys: KeyPair, username: string, t0: int, t: int)
    requires Sound(lib, keys) && SigningTotal(lib, keys) && ExpiryBoundary(lib)
    requires t0 + 30 < t < t0 + 180
    ensures var c := Configuration.DefaultConfig.(auth := Configuration.DefaultConfig.auth.(
                       refreshTokenLifespan := 30, accessTokenLifespan := 180));
      var auth := FromSettings(keys, c.auth);
      var access := IssueTokens(lib, auth, t0, username).value;
      && Configuration.Validate(c, None) == None
      && VerifyAccessToken(lib, auth, t, access).Success?
      && RefreshAccessToken(lib, auth, t, access) == Failure(RefreshTokenRejected(Validation({Expired})))
  {
    var c := Configuration.DefaultConfig.(auth := Configuration.DefaultConfig.auth.(
               refreshTokenLifespan := 30, accessTokenLifespan := 180));
    Configuration.UncheckedFieldsIgnored(Configuration.DefaultConfig, None, c.database.password, 30, 180);
    Configuration.DefaultConfigValid();
    ShortRefreshLifespanTolerated(lib, FromSettings(keys, c.auth), t0, username, t);
  }
}
