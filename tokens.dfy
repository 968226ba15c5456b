/**
 * `TokenServiceImpl`: issues ACCESS and REFRESH tokens, validates them
 * fail-closed with optional fingerprint binding, extracts the subject, and
 * generates the fingerprint and its digest.
 *
 * The service's fields are fixed at construction, so the service is a value.
 * Issuance reads the injected clock; the verifier, built without a clock of
 * its own, reads the system clock on each call. Both are instants given as
 * arguments (whole seconds). The random source is a `SecureRandom` object.
 */
module Tokens {
  import opened Wrappers
  import opened Text
  import opened Utils
  import opened Config
  import opened Jwt

  /** A SHA3-256 digest: 32 bytes. */
  type Digest = s: seq<int8> | |s| == 32 witness seq(32, i => 0 as int8)

  /** The number of random bytes in a fingerprint. */
  const FINGERPRINT_BYTES: nat := 50

  /** `TokenDto`: type, serialised token, duration in seconds and expiry instant. */
  datatype TokenDto = TokenDto(tokenType: TokenType, tokenValue: string, duration: int, expiryDate: int)

  /** The exception `Assert.hasText` raises. */
  datatype TokenError = IllegalArgument(message: string)

  /** The service's configuration and collaborators: `sha3` is SHA3-256 of the
      UTF-8 encoding of a string. */
  datatype TokenService = TokenService(props: SecurityProperties, lib: JwtLibrary, sha3: string -> Digest)

  /** `SecureRandom`: fills a buffer with bytes nobody can predict. */
  class SecureRandom {
    constructor () {}

    method NextBytes(bytes: array<int8>)
      modifies bytes
    {
      for i := 0 to bytes.Length {
        var b: int8 := *;
        bytes[i] := b;
      }
    }
  }

  /** The claims `generateToken` writes at time `now`. */
  function IssuedClaims(svc: TokenService, settings: Config.Token, subject: string, tokenType: TokenType,
                        fingerprintHash: Option<string>, now: int): Claims
  {
    Claims(svc.props.tokenIssuer, now, now + settings.expiration, subject, tokenType, fingerprintHash)
  }

  /** `generateToken`: the expiry is the clock's `now` plus the configured
      seconds, and under a non-empty secret the signed value decodes to
      exactly the claims written. */
  function GenerateToken(svc: TokenService, settings: Config.Token, subject: string, tokenType: TokenType,
                         fingerprintHash: Option<string>, now: int): (t: TokenDto)
    ensures t.tokenType == tokenType
    ensures t.duration == settings.expiration && t.expiryDate == now + settings.expiration
    ensures Lawful(svc.lib) && svc.props.tokenSecret != "" ==>
      svc.lib.decode(svc.props.tokenSecret, t.tokenValue)
        == Some(IssuedClaims(svc, settings, subject, tokenType, fingerprintHash, now))
  {
    var claims := IssuedClaims(svc, settings, subject, tokenType, fingerprintHash, now);
    TokenDto(tokenType, svc.lib.sign(svc.props.tokenSecret, claims), settings.expiration, now + settings.expiration)
  }

  /** `generateAccessToken`: tagged ACCESS, with the access settings. */
  function GenerateAccessToken(svc: TokenService, subject: string, fingerprintHash: Option<string>, now: int): (t: TokenDto)
    ensures t.tokenType == ACCESS
    ensures t.duration == svc.props.accessToken.expiration
    ensures t.expiryDate == now + svc.props.accessToken.expiration
    ensures Lawful(svc.lib) && svc.props.tokenSecret != "" ==>
      svc.lib.decode(svc.props.tokenSecret, t.tokenValue)
        == Some(Claims(svc.props.tokenIssuer, now, t.expiryDate, subject, ACCESS, fingerprintHash))
  {
    GenerateToken(svc, svc.props.accessToken, subject, ACCESS, fingerprintHash, now)
  }

  /** `generateRefreshToken`: tagged REFRESH, with the refresh settings. */
  function GenerateRefreshToken(svc: TokenService, subject: string, fingerprintHash: Option<string>, now: int): (t: TokenDto)
    ensures t.tokenType == REFRESH
    ensures t.duration == svc.props.refreshToken.expiration
    ensures t.expiryDate == now + svc.props.refreshToken.expiration
    ensures Lawful(svc.lib) && svc.props.tokenSecret != "" ==>
      svc.lib.decode(svc.props.tokenSecret, t.tokenValue)
        == Some(Claims(svc.props.tokenIssuer, now, t.expiryDate, subject, REFRESH, fingerprintHash))
  {
    GenerateToken(svc, svc.props.refreshToken, subject, REFRESH, fingerprintHash, now)
  }

  /** `verifier.verify(token)` at system time `now`: signature, issuer and
      expiry checks; `None` where the verifier throws. */
  function Verify(svc: TokenService, now: int, token: string): (r: Option<Claims>)
    ensures r.Some? <==>
      && svc.lib.decode(svc.props.tokenSecret, token).Some?
      && svc.lib.decode(svc.props.tokenSecret, token).value.issuer == svc.props.tokenIssuer
      && svc.lib.notExpired(now, svc.lib.decode(svc.props.tokenSecret, token).value.expiresAt)
    ensures r.Some? ==> r == svc.lib.decode(svc.props.tokenSecret, token)
  {
    match svc.lib.decode(svc.props.tokenSecret, token)
    case None => None
    case Some(c) =>
      if c.issuer == svc.props.tokenIssuer && svc.lib.notExpired(now, c.expiresAt) then Some(c) else None
  }

  /** `getUsernameFromToken`: the subject of a token that passes the verifier;
      `None` where the verifier throws (a null token included). */
  function GetUsernameFromToken(svc: TokenService, now: int, token: Option<string>): (u: Option<string>)
    ensures u.Some? <==> token.Some? && Verify(svc, now, token.value).Some?
    ensures u.Some? ==> u.value == Verify(svc, now, token.value).value.subject
  {
    if token.None? then None
    else match Verify(svc, now, token.value)
      case None => None
      case Some(c) => Some(c.subject)
  }

  /** `generateUserFingerprintHash`: null when binding is off (whatever the
      input); otherwise an IllegalArgumentException for a blank input, and the
      lower-case hex of the 32-byte SHA3-256 digest for any other. */
  function GenerateUserFingerprintHash(svc: TokenService, fingerprint: Option<string>): (r: Result<Option<string>, TokenError>)
    ensures !svc.props.cookie.withFingerprint ==> r == Success(None)
    ensures svc.props.cookie.withFingerprint ==> (r.Success? <==> HasText(fingerprint))
    ensures r.Success? && r.value.Some? ==> |r.value.value| == 64 && IsLowerHex(r.value.value)
  {
    if !svc.props.cookie.withFingerprint then Success(None)
    else if !HasText(fingerprint) then Failure(IllegalArgument("Can't generate fingerprint hash, fingerprint doesn't contain any value!"))
    else
      HexIsLowerHex(svc.sha3(fingerprint.value));
      Success(Some(Hex(svc.sha3(fingerprint.value))))
  }

  /** `validateToken`: true only for a token with text that passes the
      verifier and, when binding is on, whose hash claim has text and equals
      the hash of a presented fingerprint that has text. Every failure,
      including every exception of the library, is `false`. */
  function ValidateToken(svc: TokenService, now: int, token: Option<string>, fingerprint: Option<string>): (ok: bool)
    ensures ok ==> HasText(token) && Verify(svc, now, token.value).Some?
  {
    if !HasText(token) then false
    else match Verify(svc, now, token.value)
      case None => false
      case Some(c) =>
        !svc.props.cookie.withFingerprint
        || (HasText(fingerprint) && HasText(c.fingerprintHash)
            && GenerateUserFingerprintHash(svc, fingerprint) == Success(c.fingerprintHash))
  }

  /** What `generateUserFingerprint` may return: null when binding is off,
      otherwise the hex encoding of 50 bytes. */
  ghost predicate FingerprintShape(svc: TokenService, fingerprint: Option<string>) {
    if svc.props.cookie.withFingerprint
    then exists bytes: seq<int8> :: |bytes| == FINGERPRINT_BYTES && fingerprint == Some(Hex(bytes))
    else fingerprint == None
  }

  /** `generateUserFingerprint`: fills a 50-byte buffer from the random source
      and hex-encodes it, or returns null when binding is off. */
  method GenerateUserFingerprint(svc: TokenService, rng: SecureRandom) returns (fingerprint: Option<string>)
    ensures FingerprintShape(svc, fingerprint)
    ensures svc.props.cookie.withFingerprint ==>
      fingerprint.Some? && |fingerprint.value| == 2 * FINGERPRINT_BYTES && IsLowerHex(fingerprint.value)
  {
    if svc.props.cookie.withFingerprint {
      var randomFgp := new int8[FINGERPRINT_BYTES];
      rng.NextBytes(randomFgp);
      var hex := BytesToHex(randomFgp);
      HexIsLowerHex(randomFgp[..]);
      return Some(hex);
    }
    return None;
  }

  /** A generated fingerprint is accepted by the hash: a non-empty hex string
      has text, and a null one is passed only when binding is off. */
  lemma FingerprintShapeHashes(svc: TokenService, fingerprint: Option<string>)
    requires FingerprintShape(svc, fingerprint)
    ensures GenerateUserFingerprintHash(svc, fingerprint).Success?
    ensures svc.props.cookie.withFingerprint ==>
      fingerprint.Some? && |fingerprint.value| == 2 * FINGERPRINT_BYTES && IsLowerHex(fingerprint.value)
  {
    if svc.props.cookie.withFingerprint {
      var bytes: seq<int8> :| |bytes| == FINGERPRINT_BYTES && fingerprint == Some(Hex(bytes));
      HexIsLowerHex(bytes);
      assert !IsJavaWhitespace(fingerprint.value[0]);
      HasTextWitness(fingerprint.value, 0);
    }
  }

  /** The validation decision in full, both directions: text, verifier, and,
      when binding is on, text on both sides and equal digests. */
  lemma ValidateTokenIff(svc: TokenService, now: int, token: Option<string>, fingerprint: Option<string>)
    ensures ValidateToken(svc, now, token, fingerprint) <==>
      && HasText(token)
      && Verify(svc, now, token.value).Some?
      && (svc.props.cookie.withFingerprint ==>
            var claim := Verify(svc, now, token.value).value.fingerprintHash;
            && HasText(fingerprint) && HasText(claim)
            && claim.value == Hex(svc.sha3(fingerprint.value)))
  {
  }

  /** A token that validates yields a subject: `getUsernameFromToken` does not
      throw after `validateToken` succeeded at the same instant. */
  lemma ValidTokenHasUsername(svc: TokenService, now: int, token: Option<string>, fingerprint: Option<string>)
    requires ValidateToken(svc, now, token, fingerprint)
    ensures GetUsernameFromToken(svc, now, token) == Some(Verify(svc, now, token.value).value.subject)
  {
  }

  /** A token that passes the verifier still passes it at any later (or
      earlier) instant before its expiry second, with the same claims. */
  lemma VerifyLater(svc: TokenService, t1: int, t2: int, token: string)
    requires Lawful(svc.lib)
    requires Verify(svc, t1, token).Some? && t2 < Verify(svc, t1, token).value.expiresAt
    ensures Verify(svc, t2, token) == Verify(svc, t1, token)
  {
  }

  /** A token passes the verifier until it expires; its subject is the one
      given at issuance, whatever it is (the empty and all-blank subjects
      included). */
  lemma {:induction false} IssuedTokenVerifies(svc: TokenService, settings: Config.Token, subject: string,
                                               tokenType: TokenType, fingerprintHash: Option<string>, now: int, at: int)
    requires Lawful(svc.lib) && svc.props.tokenSecret != ""
    requires at < now + settings.expiration
    ensures var t := GenerateToken(svc, settings, subject, tokenType, fingerprintHash, now);
      && Verify(svc, at, t.tokenValue) == Some(IssuedClaims(svc, settings, subject, tokenType, fingerprintHash, now))
      && GetUsernameFromToken(svc, at, Some(t.tokenValue)) == Some(subject)
      && HasText(Some(t.tokenValue))
  {
    var claims := IssuedClaims(svc, settings, subject, tokenType, fingerprintHash, now);
    var v := svc.lib.sign(svc.props.tokenSecret, claims);
    assert '.' in v;
    var i :| 0 <= i < |v| && v[i] == '.';
    HasTextWitness(v, i);
  }

  /** A token validates with the very fingerprint whose hash it carries; with
      binding off it validates whatever is presented, null included. */
  lemma IssuedTokenValidates(svc: TokenService, settings: Config.Token, subject: string, tokenType: TokenType,
                             fingerprint: Option<string>, presented: Option<string>, now: int, at: int)
    requires Lawful(svc.lib) && svc.props.tokenSecret != ""
    requires at < now + settings.expiration
    requires GenerateUserFingerprintHash(svc, fingerprint).Success?
    requires svc.props.cookie.withFingerprint ==> presented == fingerprint
    ensures var h := GenerateUserFingerprintHash(svc, fingerprint).value;
      ValidateToken(svc, at, Some(GenerateToken(svc, settings, subject, tokenType, h, now).tokenValue), presented)
  {
    var h := GenerateUserFingerprintHash(svc, fingerprint).value;
    IssuedTokenVerifies(svc, settings, subject, tokenType, h, now, at);
    if svc.props.cookie.withFingerprint {
      var d := Hex(svc.sha3(fingerprint.value));
      HexIsLowerHex(svc.sha3(fingerprint.value));
      HasTextWitness(d, 0);
    }
  }

  /** Under the empty secret nothing passes the verifier: every token is
      refused and no subject can be read. */
  lemma EmptySecretRejectsAll(svc: TokenService, now: int, token: Option<string>, fingerprint: Option<string>)
    requires Lawful(svc.lib) && svc.props.tokenSecret == ""
    ensures !ValidateToken(svc, now, token, fingerprint) && GetUsernameFromToken(svc, now, token) == None
  {
    if token.Some? {
      assert svc.lib.decode("", token.value) == None;
    }
  }

  /** With binding off the presented fingerprint and the hash claim play no
      part. */
  lemma BindingOffIgnoresFingerprint(svc: TokenService, now: int, token: Option<string>, fp1: Option<string>, fp2: Option<string>)
    requires !svc.props.cookie.withFingerprint
    ensures ValidateToken(svc, now, token, fp1) == ValidateToken(svc, now, token, fp2)
  {
  }

  /** With binding on, a token bound to one fingerprint is refused for any
      fingerprint with a different digest: the hex rendering is injective. */
  lemma FingerprintMismatchRejected(svc: TokenService, settings: Config.Token, subject: string, tokenType: TokenType,
                                    fingerprint: string, presented: string, now: int, at: int)
    requires Lawful(svc.lib) && svc.props.cookie.withFingerprint
    requires GenerateUserFingerprintHash(svc, Some(fingerprint)).Success?
    requires svc.sha3(presented) != svc.sha3(fingerprint)
    ensures var h := GenerateUserFingerprintHash(svc, Some(fingerprint)).value;
      !ValidateToken(svc, at, Some(GenerateToken(svc, settings, subject, tokenType, h, now).tokenValue), Some(presented))
  {
    if Hex(svc.sha3(presented)) == Hex(svc.sha3(fingerprint)) {
      HexInjective(svc.sha3(presented), svc.sha3(fingerprint));
    }
  }

  /** A token issued with a negative (or any elapsed) lifetime is refused,
      and its subject cannot be read. */
  lemma ExpiredTokenRejected(svc: TokenService, settings: Config.Token, subject: string, tokenType: TokenType,
                             fingerprintHash: Option<string>, presented: Option<string>, now: int, at: int)
    requires Lawful(svc.lib)
    requires now + settings.expiration < at
    ensures var t := GenerateToken(svc, settings, subject, tokenType, fingerprintHash, now);
      !ValidateToken(svc, at, Some(t.tokenValue), presented) && GetUsernameFromToken(svc, at, Some(t.tokenValue)) == None
  {
  }

  /** Around the expiry second: a token issued at `now` for `d` seconds still
      validates one second before `now + d` and no longer one second after. */
  lemma ExpiryBoundary(svc: TokenService, settings: Config.Token, subject: string, tokenType: TokenType,
                       fingerprint: Option<string>, now: int)
    requires Lawful(svc.lib) && svc.props.tokenSecret != ""
    requires GenerateUserFingerprintHash(svc, fingerprint).Success?
    ensures var h := GenerateUserFingerprintHash(svc, fingerprint).value;
      var t := GenerateToken(svc, settings, subject, tokenType, h, now);
      && ValidateToken(svc, now + settings.expiration - 1, Some(t.tokenValue), fingerprint)
      && !ValidateToken(svc, now + settings.expiration + 1, Some(t.tokenValue), fingerprint)
  {
    var h := GenerateUserFingerprintHash(svc, fingerprint).value;
    IssuedTokenValidates(svc, settings, subject, tokenType, fingerprint, fingerprint, now, now + settings.expiration - 1);
    ExpiredTokenRejected(svc, settings, subject, tokenType, h, fingerprint, now, now + settings.expiration + 1);
  }

  /** The services do not rely on the 64-character bound: with the secret
      "secret" the configuration is invalid, yet a token still validates. */
  lemma ShortSecretStillWorks(lib: JwtLibrary, sha3: string -> Digest, subject: string, now: int)
    requires Lawful(lib)
    ensures var props := SecurityProperties("secret", "issuer", Config.Token("access", 100), Config.Token("refresh", 100),
                                            Cookie(false, false, false, false, None, None, None));
      var svc := TokenService(props, lib, sha3);
      && !Config.Valid(props)
      && ValidateToken(svc, now, Some(GenerateAccessToken(svc, subject, None, now).tokenValue), None)
  {
    var props := SecurityProperties("secret", "issuer", Config.Token("access", 100), Config.Token("refresh", 100),
                                    Cookie(false, false, false, false, None, None, None));
    var svc := TokenService(props, lib, sha3);
    IssuedTokenValidates(svc, props.accessToken, subject, ACCESS, None, None, now, now);
  }
}
