# Dual-token authentication and configuration validation, in Dafny

This project models the core of a small Go API service:

* **The access/refresh token protocol** (`auth/auth.go`). An `Authenticator` holds an RSA
  keypair and two lifespans. It mints *refresh tokens* (claims: `Username`, `exp`) and
  *access tokens* (claims: the refresh token string embedded verbatim, `exp`). Parsing comes
  in two modes. The strict mode (`VerifyAccessToken`, `parseRefreshToken`) returns any library
  error. The tolerant mode (`parseAccessToken`) excuses a validation error whose flag mask
  contains `Expired`. `RefreshAccessToken` chains the tolerant access parse, the strict parse
  of the embedded refresh token, and a fresh mint for the recovered user. `Secure` forwards a
  request only when a token can be extracted and verified strictly; otherwise it answers 403.
* **Configuration validation** (`config/config.go`). `ReadFromFile` checks the fields in a
  fixed order after YAML unmarshalling. The first failing field decides the error. The
  unmarshal error surfaces only when every field passes.

Modules:

| file | module | content |
|---|---|---|
| `wrappers.dfy` | `Wrappers` | `Option`, `Result` |
| `jwt.dfy` | `Jwt` | the JWT library boundary: keys, payload, validation flags, parse outcome, the laws lemmas rely on |
| `auth.dfy` | `Auth` | claims, `Authenticator`, minting, both parse modes, refresh, the `Secure` decision |
| `protocol.dfy` | `Protocol` | lemmas over several calls: the four refresh cases, rotation, sliding sessions, the gate |
| `config.dfy` | `Configuration` | the configuration records, `DefaultConfig`, the ordered field checks |

## How the library and the clock are modelled

The JWT library (RS512 signing, token parsing, claims validation) is a value
`JwtLibrary(sign, parse, expired)` of uninterpreted functions. Every operation takes it as a
parameter, together with the clock `now` in Unix seconds. A parse yields either a
`NonValidationError` or the decoded payload with a set of validation flags
(`Malformed`, `SignatureInvalid`, `Expired`, `NotValidYet`, `ClaimsInvalid`). The empty set
means "no error". The library's behaviour appears only as named laws, which each lemma
assumes explicitly:

* `Sound`: a token signed with the private key parses back to its payload. It carries the
  flag `Expired` exactly when `expired(now, exp)` holds.
* `SigningTotal`: signing never fails.
* `Unforgeable`: a token whose signature verifies was produced by signing its payload.
* `ExpiryBoundary`: `expired(now, exp)` is false before `exp` and true after it. The instant
  `now == exp` is left open, because the boundary lives in the library.

A payload records which JSON keys it carries (`Username`, `RefreshToken`, `exp`). Decoding it
into the other claims struct leaves the missing key at `""`, as Go's JSON decoding does.

## Behaviour of the code worth knowing

* **The tolerant parse tests one bit of the error mask.** The comment at auth/auth.go:121-122
  says the parse ignores the error when it "fails due to expiry". The test at auth/auth.go:132
  rejects only when the error is not a validation error, or when its mask lacks the `Expired`
  bit. So an error carrying `Expired` together with `SignatureInvalid` is excused too
  (`Auth.ParseAccessToken`). What still protects a refresh is the strict parse of the embedded
  refresh token (`Protocol.RefreshNeedsGenuineRefreshToken`).
* **A refresh in the issuing second returns the same token.** Signing is deterministic, so
  refreshing in the second the pair was issued returns the identical access token
  (`Protocol.NoRotationWithinSecond`). A refresh in any other second yields a different refresh
  token (`Protocol.RotationAcrossSeconds`).
* **Nothing revokes a refresh token.** The comment at auth/auth.go:80-84 says a refresh token "is
  stored in the database, and can be revoked". No code stores or revokes one. An old refresh
  token therefore stays usable until its `exp`, and a chain of timely refreshes keeps a session
  alive indefinitely (`Protocol.SlidingSession`).
* **Token types are not distinguished.** Both claim structs are decoded from the same kind of
  JWT. A live refresh token therefore passes `VerifyAccessToken`, and with it `Secure`, with an
  empty embedded refresh token (`Protocol.SecureAdmitsRefreshToken`).
* **Lifespans are never validated.** `ReadFromFile` (config/config.go:61-89) checks neither
  lifespan, so zero, negative and inverted lifespans are accepted
  (`Configuration.UncheckedFieldsIgnored`, `Protocol.AcceptedSettingsMayInvertLifespans`).
* **The four refresh cases.** The case list at auth/auth_test.go:15-19 pairs an expired or valid
  access token with an expired or valid refresh token. A refresh succeeds exactly in the two
  cases with a valid refresh token (`Protocol.RefreshSucceedsIffRefreshTokenLive`).

## Model

| member | source | states |
|---|---|---|
| `Auth.NewRefreshToken` | auth/auth.go:85-93 | under a sound library, the minted token parses strictly, at every instant, to `Username == username` and `ExpiresAt == now + refreshTokenLifespan`, or to the `Expired` error once expired; with total signing it is always minted |
| `Auth.NewAccessToken` | auth/auth.go:95-103 | under a sound library, the tolerant parse recovers `RefreshToken == refreshToken` verbatim and `ExpiresAt == now + accessTokenLifespan` at every instant; the strict parse returns the same claims until expiry and `Expired` afterwards |
| `Auth.VerifyAccessToken` | auth/auth.go:139-145 | strict: succeeds exactly when the library reports no error, with the decoded payload read as access claims (`RefreshToken`, `exp`); otherwise returns the library's error unchanged |
| `Auth.ParseRefreshToken` | auth/auth.go:147-153 | strict: succeeds exactly when the library reports no error, with the decoded payload read as refresh claims (`Username`, `exp`); otherwise returns the library's error unchanged |
| `Auth.ParseAccessToken` | auth/auth.go:121-137 | succeeds exactly when the strict parse succeeds or the flag set contains `Expired`, whatever other flags it holds; it then returns the decoded claims; when it fails, it fails with the strict parse's error |
| `Auth.IssueTokens` | auth/auth.go:114-118 | under a sound library, the new access token expires `accessTokenLifespan` after `now` and embeds a refresh token that strictly parses to the given user with expiry `now + refreshTokenLifespan`; its errors are only the two minting failures; with total signing it succeeds |
| `Auth.RefreshAccessToken` | auth/auth.go:105-119 | a failed tolerant access parse or a failed strict parse of the embedded refresh token short-circuits with that error and issues nothing; otherwise the result is exactly a fresh issue at `now` for the recovered username |
| `Auth.Secure` | auth/auth.go:155-173 | forwards exactly when the extractor succeeds and the strict parse accepts the token; every other outcome is a 403 |
| `Protocol.RefreshOfIssuedPair` | auth/auth.go:105-137 | for a pair issued at `t0`, at any `t`: the tolerant parse returns the claims; the strict parse succeeds iff the access token is unexpired; the refresh is denied with `Expired` iff the refresh token has expired, regardless of the access token, and otherwise equals a fresh issue at `t` for the same user |
| `Protocol.RefreshSucceedsIffRefreshTokenLive` | auth/auth_test.go:15-19 | with total signing, the refresh of an issued pair succeeds iff its refresh token is unexpired; this covers the four listed cases of access and refresh expiry |
| `Protocol.RefreshKeepsUser` | auth/auth.go:114-118 | a successful refresh yields an access token expiring at `t + accessTokenLifespan` whose embedded refresh token parses to the original username with expiry `t + refreshTokenLifespan` |
| `Protocol.RotationAcrossSeconds` | auth/auth.go:85-93 | a refresh in a second other than the issue second embeds a refresh token different from the original |
| `Protocol.NoRotationWithinSecond` | auth/auth.go:85-93 | a refresh in the issue second returns the identical access token, because signing is deterministic |
| `Protocol.SlidingSession` | auth/auth.go:105-119 | a chain of refreshes, each before the previous refresh token expired, equals a fresh issue at the last refresh time for the same user; a late step makes the chain fail with `Expired` |
| `Protocol.SecureFollowsAccessExpiry` | auth/auth.go:165-170 | for an issued access token, the gate forwards iff the access token is unexpired |
| `Protocol.SecureAdmitsRefreshToken` | auth/auth.go:139-145 | a refresh token presented to the gate is forwarded iff it is unexpired, and is decoded with an empty embedded refresh token |
| `Protocol.RefreshNeedsGenuineRefreshToken` | auth/auth.go:110-113 | for any presented access token, a successful refresh implies that the embedded refresh token was signed with the private key, is unexpired, and that the result is a fresh issue for its user |
| `Protocol.ShortRefreshLifespanTolerated` | auth/auth.go:38-39 | when the refresh lifespan is shorter than the access lifespan, between the two expiries the access token passes strict verification but cannot be refreshed |
| `Protocol.AcceptedSettingsMayInvertLifespans` | auth/auth.go:59 | a configuration with refresh lifespan 30 s and access lifespan 180 s passes validation; for the authenticator built from it, between 30 s and 180 s after issue the access token passes strict verification but the refresh is denied with `Expired` |
| `Protocol.DefaultLifespansScenario` | config/config.go:48-49 | with lifespans 30 s and 180 s and a pair for "alice" issued at 0: at 35 s strict verification fails with `Expired`, the gate answers 403, and the refresh succeeds; at 200 s the refresh is denied |
| `Configuration.Validate` | config/config.go:67-88 | `None` iff every checked field is specified and unmarshalling succeeded; a reported field is unspecified and every field ranked before it (Host, Port, PublicKeyPath, PrivateKeyPath, Name, Username, SendGrid) is specified; any unspecified field takes precedence over the unmarshal error |
| `Configuration.ReadFromFile` | config/config.go:61-89 | a read failure returns that error and leaves the receiver unchanged; otherwise the receiver becomes the decoded record, even if validation then fails, and the verdict is `Validate`'s on that record and the decode error; the file is accepted iff it was read, decoded without error and every checked field is specified |
| `Configuration.PortRejectedOnlyWhenZero` | config/config.go:70-72 | the port error is reported iff the host is set and the port is 0; any nonzero port, negative ones included, passes |
| `Configuration.UncheckedFieldsIgnored` | config/config.go:61-89 | changing the password or either lifespan never changes the verdict, so zero, negative or inverted lifespans are accepted |
| `Configuration.DefaultConfigValid` | config/config.go:38-59 | the defaults pass every check and their refresh lifespan (180) exceeds their access lifespan (30) |
| `Configuration.MessagesIdentifyField` | config/config.go:67-87 | the seven field-check messages are pairwise distinct |

## Left out

- Key loading in `NewAuthenticator` (auth/auth.go:42-58): file reads and PEM parsing belong to the OS and the JWT library. The keypair is an opaque immutable value, and only the final construction (line 59) is modelled.
- RS512 signing, signature checking, the JWT wire format and claims validation are library code. They appear only through the abstract `JwtLibrary` and its laws. In particular, the library's exact expiry boundary and its handling of an absent `exp` claim are not modelled.
- `HashPassword` / `CheckPasswordHash` (auth/auth.go:62-69): thin wrappers over bcrypt.
- `GenerateToken` (auth/auth.go:71-78): depends on system randomness and base64 encoding.
- The HTTP mechanics of `Secure`: writing the response and the log lines. Only the forward/forbid decision is modelled.
- The clock is read once per operation. The source calls `time.Now()` separately in the parse and in each mint, so the instants may differ by a fraction of a second.
- Auth.NewRefreshToken: `ExpiresAt` is modelled as `now + lifespan` in unbounded integers. The source multiplies the lifespan by one second in 64-bit nanoseconds, which wraps for lifespans beyond about 292 years.
- Auth.NewRefreshToken: the round trip of the username assumes valid UTF-8. A Go string is a byte string and JSON encoding replaces invalid UTF-8, so such a username would not come back unchanged. Dafny strings cannot hold invalid UTF-8.
- Auth.NewAccessToken: the same 64-bit nanosecond wrap-around is not modelled.
- Auth.VerifyAccessToken: on error, the source also returns the partly decoded claims. Its only caller discards them, so the model returns only the error.
- Auth.ParseRefreshToken: on error, the partly decoded claims returned alongside the error are dropped in the same way.
- Auth.Secure: both claim structs embed `*jwt.StandardClaims` as a pointer (auth/auth.go:22, :30), and the claims variables start zeroed (auth/auth.go:124, :140, :148). For a JWT whose payload carries no standard claim, the pointer stays nil and the library's validity check panics. The HTTP server then drops the connection instead of answering 403. The model treats every parse as returning an outcome, so this panic is not modelled.
- Configuration.ReadFromFile: the decoder receives `&config`, a pointer to the receiver pointer (config/config.go:66). A YAML document that is just `null` or `~` sets that pointer to nil, and the field check at config/config.go:67 then panics. The model's decoder always returns a record, so this panic is not modelled.
- YAML decoding and `Serialize` (config/config.go:91-93) are library behaviour. The decoder is a parameter of `ReadFromFile`, which returns the decoded record and the decode error.
- The key-generation script (auth/keys.go), the demo program (main.go), the server bootstrap, the CORS/header middleware and the goroutine supervisor are process, HTTP and concurrency plumbing outside the core.
