/**
 * The server's token helpers: the claims put into access and refresh tokens,
 * and how a failed parse is turned into one of four errors. The claim names
 * `aud`, `exp` and `iss` are the registered claims of section 4.1 of RFC 7519.
 * Signing and signature checking stay in the JWT library: its verdict on a
 * token string enters as a `Verdict` value.
 */
module Jwt {
  import opened Wrappers

  /** The library's validation-error bits (a `uint32` bit set). */
  const MalformedBit: bv32 := 1
  const UnverifiableBit: bv32 := 2
  const SignatureInvalidBit: bv32 := 4
  const AudienceBit: bv32 := 8
  const ExpiredBit: bv32 := 16
  const IssuedAtBit: bv32 := 32
  const IssuerBit: bv32 := 64
  const NotValidYetBit: bv32 := 128

  /** The four errors the service reports. */
  datatype TokenError = TokenExpired | TokenNotValidYet | TokenMalformed | TokenInvalid

  /** The text of each error. */
  function Message(e: TokenError): (m: string)
    ensures m != ""
  {
    match e
    case TokenExpired => "token is expired"
    case TokenNotValidYet => "token not active yet"
    case TokenMalformed => "that's not even a token"
    case TokenInvalid => "couldn't handle this token"
  }

  /** Different errors have different texts, so the text identifies the error. */
  lemma MessageInjective(e1: TokenError, e2: TokenError)
    ensures Message(e1) == Message(e2) ==> e1 == e2
  {
  }

  /** A validation error's bits, tested in the order malformed, expired, not yet valid. */
  function Classify(bits: bv32): (e: TokenError)
    ensures e == TokenMalformed <==> bits & MalformedBit != 0
    ensures e == TokenExpired <==> bits & MalformedBit == 0 && bits & ExpiredBit != 0
    ensures e == TokenNotValidYet <==> bits & MalformedBit == 0 && bits & ExpiredBit == 0 && bits & NotValidYetBit != 0
  {
    if bits & MalformedBit != 0 then TokenMalformed
    else if bits & ExpiredBit != 0 then TokenExpired
    else if bits & NotValidYetBit != 0 then TokenNotValidYet
    else TokenInvalid
  }

  /** Only the three tested bits matter: every other bit, such as a bad signature, is ignored once one of them is set, and alone gives `TokenInvalid`. */
  lemma ClassifyOnlyThreeBits(bits: bv32)
    ensures Classify(bits) == Classify(bits & (MalformedBit | ExpiredBit | NotValidYetBit))
    ensures bits & (MalformedBit | ExpiredBit | NotValidYetBit) == 0 ==> Classify(bits) == TokenInvalid
  {
    var m := bits & (MalformedBit | ExpiredBit | NotValidYetBit);
    assert m & MalformedBit == bits & MalformedBit;
    assert m & ExpiredBit == bits & ExpiredBit;
    assert m & NotValidYetBit == bits & NotValidYetBit;
  }

  /** A token that is both expired and not yet valid is reported as expired; a malformed one as malformed, whatever else is wrong. */
  lemma ClassifyPriority(bits: bv32)
    ensures bits & MalformedBit != 0 ==> Classify(bits | ExpiredBit | NotValidYetBit) == TokenMalformed
    ensures Classify((bits & !MalformedBit) | ExpiredBit) == TokenExpired
  {
    assert (bits | ExpiredBit | NotValidYetBit) & MalformedBit == bits & MalformedBit;
    var b := (bits & !MalformedBit) | ExpiredBit;
    assert b & MalformedBit == 0;
    assert b & ExpiredBit != 0;
  }

  /** What the library's `ParseWithClaims` produced. */
  datatype Verdict<C> =
    | ValidationFailure(bits: bv32)
    | OtherFailure
    | Parsed(valid: bool, claims: C)

  /** `parseToken`: the claims of a valid token, or one of the four errors. */
  function ParseToken<C>(v: Verdict<C>): (r: Result<C, TokenError>)
    ensures r.Ok? <==> v.Parsed? && v.valid
    ensures r.Ok? ==> r.value == v.claims
    ensures v.ValidationFailure? ==> r == Err(Classify(v.bits))
    ensures v.OtherFailure? || (v.Parsed? && !v.valid) ==> r == Err(TokenInvalid)
  {
    match v
    case ValidationFailure(bits) => Err(Classify(bits))
    case OtherFailure => Err(TokenInvalid)
    case Parsed(valid, claims) => if valid then Ok(claims) else Err(TokenInvalid)
  }

  /** The identifying part of the login claims; only the user id is read here. */
  datatype BaseClaims = BaseClaims(userId: nat, rest: map<string, string>)

  /** The registered claims of section 4.1 of RFC 7519 the service sets: `aud`, `exp` (in seconds) and `iss`. */
  datatype RegisteredClaims = RegisteredClaims(audience: seq<string>, expiresAt: int, issuer: string)

  datatype AccessClaims = AccessClaims(base: BaseClaims, registered: RegisteredClaims)

  datatype RefreshClaims = RefreshClaims(userId: nat, registered: RegisteredClaims)

  /** The audience every token is issued for. */
  const Audience: seq<string> := ["TAP"]

  /** The registered claims of a token made at `now` that lives for `lifetime` seconds. */
  function Registered(now: int, lifetime: int, issuer: string): (c: RegisteredClaims)
    ensures c.audience == ["TAP"] && c.issuer == issuer
    ensures c.expiresAt - now == lifetime
  {
    RegisteredClaims(Audience, now + lifetime, issuer)
  }

  /** `CreateAccessClaims`: the whole base claims, audience TAP, the configured issuer, expiry after the access lifetime. */
  function CreateAccessClaims(base: BaseClaims, now: int, lifetime: int, issuer: string): (c: AccessClaims)
    ensures c.base == base
    ensures c.registered.audience == ["TAP"] && c.registered.issuer == issuer
    ensures c.registered.expiresAt == now + lifetime
  {
    AccessClaims(base, Registered(now, lifetime, issuer))
  }

  /** `CreateRefreshClaims`: only the user id of the base claims, with the same registered claims as an access token. */
  function CreateRefreshClaims(base: BaseClaims, now: int, lifetime: int, issuer: string): (c: RefreshClaims)
    ensures c.userId == base.userId
    ensures c.registered.audience == ["TAP"] && c.registered.issuer == issuer
    ensures c.registered.expiresAt == now + lifetime
  {
    RefreshClaims(base.userId, Registered(now, lifetime, issuer))
  }

  /** A refresh token reveals nothing of the base claims but the user id: bases with the same user id give the same refresh claims. */
  lemma RefreshCarriesOnlyUserId(b1: BaseClaims, b2: BaseClaims, now: int, lifetime: int, issuer: string)
    ensures CreateRefreshClaims(b1, now, lifetime, issuer) == CreateRefreshClaims(b2, now, lifetime, issuer)
        <==> b1.userId == b2.userId
  {
  }

  /** Access and refresh claims made together differ only in what they carry of the base claims. */
  lemma AccessAndRefreshAgree(base: BaseClaims, now: int, access: int, refresh: int, issuer: string)
    ensures CreateAccessClaims(base, now, access, issuer).registered.audience
         == CreateRefreshClaims(base, now, refresh, issuer).registered.audience
    ensures CreateRefreshClaims(base, now, refresh, issuer).registered.expiresAt
          - CreateAccessClaims(base, now, access, issuer).registered.expiresAt == refresh - access
  {
  }

  /**
   * `ParseAccessToken` and `ParseRefreshToken`: the pair of pointers the Go
   * functions return; the library hands back the claims object it was given,
   * so the type assertion always holds.
   */
  function ParsePair<C>(v: Verdict<C>): (r: (Option<C>, Option<TokenError>))
    ensures r.0.Some? != r.1.Some?
    ensures r.0.Some? <==> ParseToken(v).Ok?
    ensures r.0.Some? ==> r.0.value == v.claims
    ensures r.1.Some? ==> r.1.value == ParseToken(v).error
  {
    match ParseToken(v)
    case Ok(c) => (Some(c), None)
    case Err(e) => (None, Some(e))
  }

  function ParseAccessToken(v: Verdict<AccessClaims>): (r: (Option<AccessClaims>, Option<TokenError>))
    ensures r.0.Some? != r.1.Some?
    ensures r.0.Some? <==> v.Parsed? && v.valid
  {
    ParsePair(v)
  }

  function ParseRefreshToken(v: Verdict<RefreshClaims>): (r: (Option<RefreshClaims>, Option<TokenError>))
    ensures r.0.Some? != r.1.Some?
    ensures r.0.Some? <==> v.Parsed? && v.valid
  {
    ParsePair(v)
  }
}
