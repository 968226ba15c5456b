/**
 * `SecurityProperties`: the settings bound from `application.auth.*` at
 * start-up and read, never written, by every other component.
 */
module Config {
  import opened Wrappers
  import opened Text

  /** The name of the hardened cookie that carries the raw fingerprint. */
  const FINGERPRINT_COOKIE_NAME: string := "__Secure-Fpg"

  /** The `@Size(min = 64)` bound on the signing secret, in UTF-16 code
      units. */
  const MIN_SECRET_LENGTH: nat := 64

  /** `SecurityProperties.Token`: where a token type lives and how long it lasts. */
  datatype Token = Token(cookieName: string, expiration: int)

  /** `SecurityProperties.Cookie`: the attribute set of the token cookies and
      the two feature flags. The three strings are nullable. */
  datatype Cookie = Cookie(
    withFingerprint: bool,
    prefixEnabled: bool,
    httpOnly: bool,
    secure: bool,
    sameSite: Option<string>,
    path: Option<string>,
    domain: Option<string>)

  datatype SecurityProperties = SecurityProperties(
    tokenSecret: string,
    tokenIssuer: string,
    accessToken: Token,
    refreshToken: Token,
    cookie: Cookie)

  /** The `@NotBlank` / `@NotNull` constraints of a `Token` entry (the
      expiration is never null here by typing). */
  predicate ValidToken(t: Token)
    ensures ValidToken(t) ==> |t.cookieName| > 0
  {
    NotBlank(t.cookieName)
  }

  /** The declared validation constraints. Binding enforces them; the
      services never check them. */
  predicate Valid(p: SecurityProperties)
    ensures Valid(p) ==> Utf16Length(p.tokenSecret) >= 64 && |p.tokenSecret| >= 32 && |p.tokenIssuer| > 0
    ensures Valid(p) ==> |p.accessToken.cookieName| > 0 && |p.refreshToken.cookieName| > 0
  {
    && Utf16Length(p.tokenSecret) >= MIN_SECRET_LENGTH
    && NotBlank(p.tokenIssuer)
    && ValidToken(p.accessToken)
    && ValidToken(p.refreshToken)
  }

  /** The bound counts code units, not characters: 32 characters above
      U+FFFF make a secret long enough, 63 characters below it do not. */
  lemma SecretLengthInCodeUnits(c: char, d: char)
    requires c > '\U{FFFF}' && d <= '\U{FFFF}'
    ensures Utf16Length(seq(32, _ => c)) >= MIN_SECRET_LENGTH
    ensures Utf16Length(seq(63, _ => d)) < MIN_SECRET_LENGTH
  {
    Utf16LengthSupplementary(c, 32);
  }
}
