/**
 * The signed token (RFC 7519, signed with HS512 as in section 3.2 of
 * RFC 7518) as an abstract claims record, and the token library as a value
 * of functions together with the laws the core depends on.
 */
module Jwt {
  import opened Wrappers

  /** The `tokenType` claim. */
  datatype TokenType = ACCESS | REFRESH

  /** The claims the token engine writes: `iss`, `iat`, `exp` (whole seconds),
      `sub`, `tokenType` and, when not null, `userFingerprintHash`. */
  datatype Claims = Claims(
    issuer: string,
    issuedAt: int,
    expiresAt: int,
    subject: string,
    tokenType: TokenType,
    fingerprintHash: Option<string>)

  /**
   * The library operations the engine calls.
   *  - `sign(secret, claims)`: the compact serialisation signed with HMAC-SHA512
   *    under `secret`;
   *  - `decode(secret, token)`: the claims of `token` if it parses and its
   *    signature checks under `secret`, otherwise `None` (the library throws);
   *  - `notExpired(now, exp)`: the verifier's expiry check of an `exp` claim
   *    at second `now`.
   */
  datatype JwtLibrary = JwtLibrary(
    sign: (string, Claims) -> string,
    decode: (string, string) -> Option<Claims>,
    notExpired: (int, int) -> bool)

  /** The laws of the library: what it signs under a non-empty secret decodes
      to the same claims under the same secret, nothing verifies under the
      empty secret (an HMAC key may not be empty), a compact serialisation
      always contains a '.', and a token passes the expiry check before its
      `exp` second and fails it after. The check at `exp` itself (no leeway,
      the instant truncated to seconds) is left open. */
  ghost predicate Lawful(lib: JwtLibrary) {
    && (forall secret, c :: secret != "" ==> lib.decode(secret, lib.sign(secret, c)) == Some(c))
    && (forall token :: lib.decode("", token) == None)
    && (forall secret, c :: '.' in lib.sign(secret, c))
    && (forall now, exp :: now < exp ==> lib.notExpired(now, exp))
    && (forall now, exp :: exp < now ==> !lib.notExpired(now, exp))
  }
}
