/** The boundary to the JWT library the authenticator calls (RS512 signing,
    token parsing, claims validation). The library's code is not part of this
    model: it is a record of functions, and what the authenticator relies on
    is stated as laws (`Sound`, `ExpiryBoundary`, `SigningTotal`,
    `Unforgeable`) that lemmas assume explicitly. */
module Jwt {
  import opened Wrappers

  /** Opaque RSA key material, parsed once from PEM and never changed. */
  datatype PublicKey = PublicKey(pem: string)
  datatype PrivateKey = PrivateKey(pem: string)
  datatype KeyPair = KeyPair(publicKey: PublicKey, privateKey: PrivateKey)

  /** The reasons a validation error can carry; the library reports them as
      bits of one mask, modelled as a set. */
  datatype Flag = Malformed | SignatureInvalid | Expired | NotValidYet | ClaimsInvalid

  /** The JSON object a token signs. The two claim structs of the
      authenticator serialise different keys (`Username` or `RefreshToken`)
      next to the standard `exp` claim; decoding into a struct reads the key
      it knows and leaves the other one at its zero value. */
  datatype Payload = Payload(username: Option<string>, refreshToken: Option<string>, expiresAt: int)

  /** What parsing a raw token yields: an error that is not a validation
      error, or the decoded payload together with the validation flags
      raised for it (no flag means no error). */
  datatype ParseOutcome =
    | NonValidationError(message: string)
    | Decoded(payload: Payload, flags: set<Flag>)

  /** The error value a parse hands back to Go code. */
  datatype ParseError =
    | NonValidation(message: string)
    | Validation(flags: set<Flag>)

  /** The library as the authenticator sees it. `expired(now, exp)` is the
      library's expiry test; its behaviour exactly at `now == exp` is left
      open (see `ExpiryBoundary`). */
  datatype JwtLibrary = JwtLibrary(
    sign: (Payload, PrivateKey) -> Result<string, string>,
    parse: (string, PublicKey, int) -> ParseOutcome,
    expired: (int, int) -> bool)

  /** The error a parse outcome amounts to; `None` is Go's `err == nil`. */
  function ErrorOf(o: ParseOutcome): (r: Option<ParseError>)
    ensures r.None? <==> o.Decoded? && o.flags == {}
    ensures r.Some? && r.value.Validation? ==> o.Decoded? && r.value.flags == o.flags && r.value.flags != {}
    ensures o.NonValidationError? ==> r == Some(NonValidation(o.message))
  {
    match o
    case NonValidationError(m) => Some(NonValidation(m))
    case Decoded(_, flags) => if flags == {} then None else Some(Validation(flags))
  }

  /** The flags claims validation raises for a genuine token at `now`. */
  function ExpiryFlags(lib: JwtLibrary, now: int, exp: int): set<Flag> {
    if lib.expired(now, exp) then {Expired} else {}
  }

  /** A token signed with the private key parses back, under the public key,
      to the very payload signed, flagged `Expired` exactly when the library
      deems its `exp` passed at `now`. */
  ghost predicate Sound(lib: JwtLibrary, keys: KeyPair) {
    forall p: Payload, now: int ::
      lib.sign(p, keys.privateKey).Success? ==>
        lib.parse(lib.sign(p, keys.privateKey).value, keys.publicKey, now)
          == Decoded(p, ExpiryFlags(lib, now, p.expiresAt))
  }

  /** Signing never fails for this key. */
  ghost predicate SigningTotal(lib: JwtLibrary, keys: KeyPair) {
    forall p: Payload :: lib.sign(p, keys.privateKey).Success?
  }

  /** A token whose signature checks out under the public key was produced
      by signing its payload with the private key. */
  ghost predicate Unforgeable(lib: JwtLibrary, keys: KeyPair) {
    forall raw: string, now: int ::
      lib.parse(raw, keys.publicKey, now).Decoded? &&
      Malformed !in lib.parse(raw, keys.publicKey, now).flags &&
      SignatureInvalid !in lib.parse(raw, keys.publicKey, now).flags ==>
        lib.sign(lib.parse(raw, keys.publicKey, now).payload, keys.privateKey) == Success(raw)
  }

  /** The expiry test is strict before and after `exp`; at `exp` itself
      either answer is allowed. */
  ghost predicate ExpiryBoundary(lib: JwtLibrary) {
    forall now: int, exp: int ::
      (now < exp ==> !lib.expired(now, exp)) && (now > exp ==> lib.expired(now, exp))
  }
}
