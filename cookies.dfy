/**
 * `CookieServiceImpl`: the Set-Cookie directives for login and refresh
 * (access, refresh and, with binding on, the hardened fingerprint cookie)
 * and the three deletion directives of logout.
 *
 * A directive is the record handed to Spring's `ResponseCookie` builder;
 * its rendering as a header string is not modelled.
 */
module Cookies {
  import opened Wrappers
  import opened Text
  import opened Config
  import opened Jwt
  import opened Tokens

  /** The cookie name prefix of section 4.1.3.2 of RFC 6265bis. */
  const COOKIE_HOST_PREFIX: string := "__Host-"

  /** The cookie name prefix of section 4.1.3.1 of RFC 6265bis. */
  const COOKIE_SECURE_PREFIX: string := "__Secure-"

  /** One Set-Cookie directive (section 4.1 of RFC 6265). `maxAge` is `None`
      when the builder leaves it unset (a session cookie); the three strings
      are omitted when `None`. */
  datatype Directive = Directive(
    name: string,
    value: string,
    maxAge: Option<int>,
    httpOnly: bool,
    secure: bool,
    sameSite: Option<string>,
    path: Option<string>,
    domain: Option<string>)

  /** The header carries a Domain attribute: `ResponseCookie` writes one only
      for a domain with text. */
  predicate RendersDomain(d: Directive) {
    HasText(d.domain)
  }

  /** The prefix requirements a user agent enforces before it stores a
      cookie (section 4.1.3 of RFC 6265bis), by exact name match. */
  predicate PrefixRulesHold(d: Directive) {
    && (StartsWith(d.name, COOKIE_SECURE_PREFIX) ==> d.secure)
    && (StartsWith(d.name, COOKIE_HOST_PREFIX) ==> d.secure && d.path == Some("/") && !RendersDomain(d))
  }

  /** The configured cookie name of a token type (the name logout and the
      request filter use). */
  function ConfiguredName(props: SecurityProperties, tokenType: TokenType): string {
    if tokenType == ACCESS then props.accessToken.cookieName else props.refreshToken.cookieName
  }

  /** The name `createCookie` gives a token cookie: `__Host-` when the prefix
      is enabled, then the configured name of the token's type. */
  function TokenCookieName(props: SecurityProperties, tokenType: TokenType): (n: string)
    ensures props.cookie.prefixEnabled ==>
      StartsWith(n, COOKIE_HOST_PREFIX) && n[|COOKIE_HOST_PREFIX|..] == ConfiguredName(props, tokenType)
    ensures !props.cookie.prefixEnabled ==> n == ConfiguredName(props, tokenType)
  {
    var n := (if props.cookie.prefixEnabled then COOKIE_HOST_PREFIX else "") + ConfiguredName(props, tokenType);
    assert props.cookie.prefixEnabled ==> n[..|COOKIE_HOST_PREFIX|] == COOKIE_HOST_PREFIX;
    n
  }

  /** The directive `createCookie` builds for a token: named after its type,
      carrying the token for as long as it lasts, with the configured
      attributes. */
  function TokenCookie(props: SecurityProperties, token: TokenDto): (d: Directive)
    ensures d.name == TokenCookieName(props, token.tokenType)
    ensures d.value == token.tokenValue && d.maxAge == Some(token.duration)
    ensures d.httpOnly == props.cookie.httpOnly && d.secure == props.cookie.secure
    ensures d.sameSite == props.cookie.sameSite && d.path == props.cookie.path && d.domain == props.cookie.domain
  {
    var c := props.cookie;
    Directive(TokenCookieName(props, token.tokenType), token.tokenValue, Some(token.duration),
              c.httpOnly, c.secure, c.sameSite, c.path, c.domain)
  }

  /** `createCookie`: the name is assembled in a buffer (the optional prefix,
      then the name chosen by the token type); value and Max-Age come from the
      token and every attribute from the configuration. */
  method CreateCookie(props: SecurityProperties, token: TokenDto) returns (d: Directive)
    ensures d == TokenCookie(props, token)
    ensures StartsWith(d.name, COOKIE_HOST_PREFIX) <== props.cookie.prefixEnabled
    ensures d.value == token.tokenValue && d.maxAge == Some(token.duration)
  {
    var cookieName := "";
    if props.cookie.prefixEnabled {
      cookieName := cookieName + COOKIE_HOST_PREFIX;
    }
    cookieName := cookieName + (if token.tokenType == ACCESS then props.accessToken.cookieName
                                else props.refreshToken.cookieName);
    var c := props.cookie;
    d := Directive(cookieName, token.tokenValue, Some(token.duration), c.httpOnly, c.secure, c.sameSite, c.path, c.domain);
    assert cookieName[..|COOKIE_HOST_PREFIX|] == COOKIE_HOST_PREFIX <== props.cookie.prefixEnabled;
  }

  /** `createHardenedCookie`: the fingerprint cookie, Strict, HttpOnly and
      Secure whatever the configuration, with no Max-Age, path or domain; its
      `__Secure-` name is never host-prefixed, and a user agent always accepts
      it under the prefix rules. */
  function CreateHardenedCookie(fingerprint: string): (d: Directive)
    ensures StartsWith(d.name, COOKIE_SECURE_PREFIX) && !StartsWith(d.name, COOKIE_HOST_PREFIX)
    ensures PrefixRulesHold(d)
  {
    assert FINGERPRINT_COOKIE_NAME[2] == 'S';
    Directive(FINGERPRINT_COOKIE_NAME, fingerprint, None, true, true, Some("Strict"), None, None)
  }

  /** `deleteCookie`: an expiring directive (empty value, Max-Age 0) under the
      given name, with the configured attributes; a user agent accepts it
      under either name prefix when the configuration meets the `__Host-`
      requirements. */
  function DeleteCookie(props: SecurityProperties, cookieName: string): (d: Directive)
    ensures d.name == cookieName && d.value == "" && d.maxAge == Some(0)
    ensures props.cookie.secure && props.cookie.path == Some("/") && !HasText(props.cookie.domain) ==> PrefixRulesHold(d)
  {
    var c := props.cookie;
    Directive(cookieName, "", Some(0), c.httpOnly, c.secure, c.sameSite, c.path, c.domain)
  }

  /** `deleteCookies`: three deletions, for the configured access name, the
      configured refresh name and the fingerprint name, in that order. */
  function DeleteCookies(props: SecurityProperties): (ds: seq<Directive>)
    ensures |ds| == 3
    ensures ds[0].name == props.accessToken.cookieName
    ensures ds[1].name == props.refreshToken.cookieName
    ensures ds[2].name == FINGERPRINT_COOKIE_NAME
    ensures forall i :: 0 <= i < |ds| ==>
      && ds[i].value == "" && ds[i].maxAge == Some(0)
      && ds[i].httpOnly == props.cookie.httpOnly && ds[i].secure == props.cookie.secure
      && ds[i].sameSite == props.cookie.sameSite && ds[i].path == props.cookie.path
      && ds[i].domain == props.cookie.domain
  {
    [ DeleteCookie(props, props.accessToken.cookieName),
      DeleteCookie(props, props.refreshToken.cookieName),
      DeleteCookie(props, FINGERPRINT_COOKIE_NAME) ]
  }

  /** The directives `generateCookies` returns for a given fingerprint: both
      tokens carry the hash of that fingerprint, which itself goes into the
      third cookie when binding is on. */
  function IssuedCookies(svc: TokenService, subject: string, now: int, fingerprint: Option<string>): (cs: seq<Directive>)
    requires GenerateUserFingerprintHash(svc, fingerprint).Success?
    ensures |cs| == if svc.props.cookie.withFingerprint then 3 else 2
    ensures cs[0].name == TokenCookieName(svc.props, ACCESS) && cs[1].name == TokenCookieName(svc.props, REFRESH)
    ensures svc.props.cookie.withFingerprint ==> cs[2] == CreateHardenedCookie(fingerprint.value)
  {
    var hash := GenerateUserFingerprintHash(svc, fingerprint).value;
    var access := GenerateAccessToken(svc, subject, hash, now);
    var refresh := GenerateRefreshToken(svc, subject, hash, now);
    [TokenCookie(svc.props, access), TokenCookie(svc.props, refresh)]
      + (if svc.props.cookie.withFingerprint then [CreateHardenedCookie(fingerprint.value)] else [])
  }

  /** `generateCookies`: draws a fingerprint, hashes it, issues an access and a
      refresh token bound to that hash, and collects their cookies followed by
      the fingerprint cookie when binding is on. */
  method GenerateCookies(svc: TokenService, rng: SecureRandom, subject: string, now: int) returns (cookies: seq<Directive>)
    ensures |cookies| == if svc.props.cookie.withFingerprint then 3 else 2
    ensures exists fingerprint ::
      && FingerprintShape(svc, fingerprint)
      && GenerateUserFingerprintHash(svc, fingerprint).Success?
      && cookies == IssuedCookies(svc, subject, now, fingerprint)
  {
    cookies := [];
    var userFingerprint := GenerateUserFingerprint(svc, rng);
    FingerprintShapeHashes(svc, userFingerprint);
    var hashed := GenerateUserFingerprintHash(svc, userFingerprint);
    var userFingerprintHash := hashed.value;
    var accessToken := GenerateAccessToken(svc, subject, userFingerprintHash, now);
    var refreshToken := GenerateRefreshToken(svc, subject, userFingerprintHash, now);
    var cookie := CreateCookie(svc.props, accessToken);
    cookies := cookies + [cookie];
    cookie := CreateCookie(svc.props, refreshToken);
    cookies := cookies + [cookie];
    ghost var issued := IssuedCookies(svc, subject, now, userFingerprint);
    assert issued[..2] == cookies;
    if svc.props.cookie.withFingerprint {
      cookies := cookies + [CreateHardenedCookie(userFingerprint.value)];
      assert issued == issued[..2] + [issued[2]];
    }
    assert cookies == issued;
  }

  /** Count, order, names and attributes of the issued directives. */
  lemma IssuedCookiesLayout(svc: TokenService, subject: string, now: int, fingerprint: Option<string>)
    requires GenerateUserFingerprintHash(svc, fingerprint).Success?
    ensures var cs := IssuedCookies(svc, subject, now, fingerprint);
      && |cs| == (if svc.props.cookie.withFingerprint then 3 else 2)
      && cs[0].name == TokenCookieName(svc.props, ACCESS)
      && cs[1].name == TokenCookieName(svc.props, REFRESH)
      && cs[0].maxAge == Some(svc.props.accessToken.expiration)
      && cs[1].maxAge == Some(svc.props.refreshToken.expiration)
      && (forall i :: 0 <= i < 2 ==>
            && cs[i].httpOnly == svc.props.cookie.httpOnly && cs[i].secure == svc.props.cookie.secure
            && cs[i].sameSite == svc.props.cookie.sameSite && cs[i].path == svc.props.cookie.path
            && cs[i].domain == svc.props.cookie.domain)
      && (svc.props.cookie.withFingerprint ==>
            && cs[2].name == FINGERPRINT_COOKIE_NAME && cs[2].value == fingerprint.value
            && cs[2].maxAge.None? && cs[2].httpOnly && cs[2].secure && cs[2].sameSite == Some("Strict"))
  {
  }

  /** The fingerprint binding round trip: both token cookies carry the same
      hash claim, the digest of the raw fingerprint in the third cookie, and,
      presented with that cookie's value (with binding off, with any
      fingerprint), each validates before its expiry second and not after. */
  lemma IssuedCookiesBound(svc: TokenService, subject: string, now: int, fingerprint: Option<string>,
                           presented: Option<string>, at: int)
    requires Lawful(svc.lib) && svc.props.tokenSecret != ""
    requires FingerprintShape(svc, fingerprint)
    requires svc.props.cookie.withFingerprint ==> presented == fingerprint
    ensures GenerateUserFingerprintHash(svc, fingerprint).Success?
    ensures var cs := IssuedCookies(svc, subject, now, fingerprint);
      && (at < now + svc.props.accessToken.expiration ==> ValidateToken(svc, at, Some(cs[0].value), presented))
      && (now + svc.props.accessToken.expiration < at ==> !ValidateToken(svc, at, Some(cs[0].value), presented))
      && (at < now + svc.props.refreshToken.expiration ==> ValidateToken(svc, at, Some(cs[1].value), presented))
      && (now + svc.props.refreshToken.expiration < at ==> !ValidateToken(svc, at, Some(cs[1].value), presented))
      && svc.lib.decode(svc.props.tokenSecret, cs[0].value).value.fingerprintHash
           == svc.lib.decode(svc.props.tokenSecret, cs[1].value).value.fingerprintHash
           == (if svc.props.cookie.withFingerprint then Some(Utils.Hex(svc.sha3(cs[2].value))) else None)
  {
    FingerprintShapeHashes(svc, fingerprint);
    var hash := GenerateUserFingerprintHash(svc, fingerprint).value;
    var cs := IssuedCookies(svc, subject, now, fingerprint);
    assert cs[0].value == GenerateAccessToken(svc, subject, hash, now).tokenValue;
    assert cs[1].value == GenerateRefreshToken(svc, subject, hash, now).tokenValue;
    if at < now + svc.props.accessToken.expiration {
      IssuedTokenValidates(svc, svc.props.accessToken, subject, ACCESS, fingerprint, presented, now, at);
    } else if now + svc.props.accessToken.expiration < at {
      ExpiredTokenRejected(svc, svc.props.accessToken, subject, ACCESS, hash, presented, now, at);
    }
    if at < now + svc.props.refreshToken.expiration {
      IssuedTokenValidates(svc, svc.props.refreshToken, subject, REFRESH, fingerprint, presented, now, at);
    } else if now + svc.props.refreshToken.expiration < at {
      ExpiredTokenRejected(svc, svc.props.refreshToken, subject, REFRESH, hash, presented, now, at);
    }
  }

  /** A token cookie carries `__Host-` exactly when the prefix is enabled
      (for configured names that do not start with it themselves), followed by
      the configured name of its type. */
  lemma TokenCookieNameHostPrefix(props: SecurityProperties, tokenType: TokenType)
    requires !StartsWith(ConfiguredName(props, tokenType), COOKIE_HOST_PREFIX)
    ensures var n := TokenCookieName(props, tokenType);
      && (StartsWith(n, COOKIE_HOST_PREFIX) <==> props.cookie.prefixEnabled)
      && n[|n| - |ConfiguredName(props, tokenType)|..] == ConfiguredName(props, tokenType)
  {
    var n := TokenCookieName(props, tokenType);
    if props.cookie.prefixEnabled {
      assert n[..|COOKIE_HOST_PREFIX|] == COOKIE_HOST_PREFIX;
    }
  }

  /** With the prefix enabled, a user agent accepts a token cookie exactly
      when the configuration sets Secure, path "/" and no domain with text. */
  lemma HostPrefixedCookieAcceptance(props: SecurityProperties, token: TokenDto)
    requires props.cookie.prefixEnabled
    ensures PrefixRulesHold(TokenCookie(props, token)) <==>
      props.cookie.secure && props.cookie.path == Some("/") && !HasText(props.cookie.domain)
  {
    var n := TokenCookie(props, token).name;
    assert n[..|COOKIE_HOST_PREFIX|] == COOKIE_HOST_PREFIX;
    assert !StartsWith(n, COOKIE_SECURE_PREFIX) by { assert n[2] == 'H'; }
  }

  /** As written, logout misses the prefixed cookies: with the prefix
      enabled, no deletion names the access cookie that login set. */
  lemma DeleteCookiesMissHostCookies(props: SecurityProperties)
    requires props.cookie.prefixEnabled
    requires props.refreshToken.cookieName != TokenCookieName(props, ACCESS)
    ensures forall d :: d in DeleteCookies(props) ==> d.name != TokenCookieName(props, ACCESS)
  {
    var n := TokenCookieName(props, ACCESS);
    assert |n| > |props.accessToken.cookieName|;
    assert n != FINGERPRINT_COOKIE_NAME by { assert n[2] == 'H' && FINGERPRINT_COOKIE_NAME[2] == 'S'; }
  }

  /** As written, with `secure` off the fingerprint deletion breaks the
      `__Secure-` rule, so a user agent ignores it and keeps the cookie that
      login set (which does meet the rule). */
  lemma FingerprintDeletionIgnoredWhenInsecure(props: SecurityProperties, fingerprint: string)
    requires !props.cookie.secure
    ensures DeleteCookies(props)[2].name == CreateHardenedCookie(fingerprint).name
    ensures PrefixRulesHold(CreateHardenedCookie(fingerprint)) && !PrefixRulesHold(DeleteCookies(props)[2])
  {
    assert StartsWith(FINGERPRINT_COOKIE_NAME, COOKIE_SECURE_PREFIX);
  }

  /** Logout as intended: delete each cookie under the name login gave it,
      the fingerprint cookie with the hardened attributes it was set with. */
  function DeleteIssuedCookies(props: SecurityProperties): (ds: seq<Directive>)
    ensures |ds| == 3 && forall i :: 0 <= i < |ds| ==> ds[i].value == "" && ds[i].maxAge == Some(0)
  {
    [ DeleteCookie(props, TokenCookieName(props, ACCESS)),
      DeleteCookie(props, TokenCookieName(props, REFRESH)),
      Directive(FINGERPRINT_COOKIE_NAME, "", Some(0), true, true, Some("Strict"), None, None) ]
  }

  /** Every directive login sets has a deletion with the same name, path and
      domain (the identity of a stored cookie, section 5.3 of RFC 6265), which
      a user agent accepts whenever it accepted the cookie. */
  lemma DeleteIssuedCookiesCoverIssued(svc: TokenService, subject: string, now: int, fingerprint: Option<string>)
    requires GenerateUserFingerprintHash(svc, fingerprint).Success?
    ensures var cs := IssuedCookies(svc, subject, now, fingerprint);
      var ds := DeleteIssuedCookies(svc.props);
      forall i :: 0 <= i < |cs| ==>
        && ds[i].name == cs[i].name && ds[i].path == cs[i].path && ds[i].domain == cs[i].domain
        && ds[i].maxAge == Some(0)
        && (PrefixRulesHold(cs[i]) ==> PrefixRulesHold(ds[i]))
  {
  }
}
