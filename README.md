# Cookie-carried JWT authentication, modelled in Dafny

This project models the authentication core of a Spring application. The core
issues signed JSON Web Tokens (RFC 7519, signed with HS512 as in section 3.2 of
RFC 7518) and carries them in cookies. A token can optionally be bound to a
browser fingerprint. The model covers five parts:

- `Utils.bytesToHex` (`hex.dfy`, module `Utils`): the fixed-width, lower-case
  hex rendering of a Java `byte[]`. It is an imperative loop over an `array`,
  proved against the recursive function `Hex`.
- `SecurityProperties` (`config.dfy`, module `Config`): the immutable settings
  record, the `__Secure-Fpg` fingerprint cookie name, and the declared
  validation constraints as the predicate `Valid`.
- `TokenServiceImpl` (`tokens.dfy`, module `Tokens`): issuing ACCESS and
  REFRESH tokens, fail-closed validation with optional fingerprint binding,
  subject extraction, and fingerprint generation and hashing.
  - The token is an abstract claims record (`Jwt.Claims`).
  - The token library is a value of functions (`Jwt.JwtLibrary`). Its laws
    (`Jwt.Lawful`) say that a record signed under a non-empty secret decodes
    to itself, that nothing verifies under the empty secret, and that a token
    passes the expiry check before its `exp` second and fails after it.
  - SHA3-256 (FIPS 202) is a function parameter returning 32 bytes.
  - `SecureRandom` is a class whose `NextBytes` havocs a 50-byte array.
  - Instants are integers, in whole seconds. Issuance reads the injected
    `Clock` (`now`). The verifier is built without a clock, so it reads the
    system clock on each call; the model gives one instant to both
    validations of a request and another to reading the subject.
- `CookieServiceImpl` (`cookies.dfy`, module `Cookies`): the ordered
  Set-Cookie directives of login/refresh and of logout, as records (name,
  value, Max-Age option, HttpOnly, Secure, SameSite, path, domain). The cookie
  prefix rules of section 4.1.3 of RFC 6265bis are the predicate
  `PrefixRulesHold`. `ResponseCookie` writes a Domain attribute only for a
  domain with text (`RendersDomain`).
- `TokenAuthenticationFilter` (`filter.dfy`, module `Filter`): the per-request
  three-way decision.
  - It is a class (`AuthFilter`) holding the response headers, the
    authenticated username and a trace of the calls it makes.
  - It talks to the token and cookie services through ports (records of
    functions). So the proofs hold for every implementation, the unit tests'
    mocks included.
  - `Decide` is the reference function that `DoFilterInternal` is proved
    against. `ServicePorts` plugs in the token engine of `Tokens`, with one
    instant for the validations and another for reading the subject.

Two notions of "blank" are used (`text.dfy`), and `@Size` counts UTF-16 code units (`Text.Utf16Length`). Spring's `hasText` uses
`Character.isWhitespace`. The `@NotBlank` constraint trims characters up to
U+0020. They differ, for example on U+2003.

Three behaviours of the code are worth stating up front:

- At the `exp` second itself, the token library decides validity. The
  verifier is built without a leeway, so the leeway is 0; what decides that
  second is the library's comparison of instants truncated to seconds. The
  model fixes the behaviour one second
  before and one second after that second and leaves the second itself open
  (see Left out).
- `deleteCookies` uses the bare configured names and the configured
  attributes, not the `__Host-` names and hardened attributes that login
  sets (see Findings).
- The services never check the 64-character bound on the secret; the unit
  tests run them with the secret `"secret"`.

## Model

| member | source | states |
|---|---|---|
| `Utils.Unsigned` | src/main/java/com/example/demo/utils/Utils.java:8 | the value `%02x` prints for a byte is in 0..255 and congruent to the signed byte modulo 256 |
| `Utils.ByteHex` | src/main/java/com/example/demo/utils/Utils.java:8 | one byte renders as exactly two lower-case hex digits whose value is the byte's unsigned value |
| `Utils.Hex` | src/main/java/com/example/demo/utils/Utils.java:5-11 | the encoding is exactly twice as long as the input |
| `Utils.BytesToHex` | src/main/java/com/example/demo/utils/Utils.java:5-11 | the buffer loop over the byte array produces exactly `Hex` of the array's contents |
| `Utils.ByteHexInjective` | src/main/java/com/example/demo/utils/Utils.java:8 | two bytes with the same two digits are the same byte |
| `Utils.HexConcat` | src/test/java/com/example/demo/utils/UtilsTest.java:24 | encoding distributes over concatenation: hex(a + b) = hex(a) + hex(b) |
| `Utils.HexAt` | src/main/java/com/example/demo/utils/Utils.java:7-9 | characters 2i and 2i+1 of the output are the two digits of byte i, so the order follows the input |
| `Utils.HexIsLowerHex` | src/main/java/com/example/demo/utils/Utils.java:8 | every output character is in [0-9a-f] |
| `Utils.HexInjective` | src/main/java/com/example/demo/utils/Utils.java:8 | distinct byte sequences give distinct hex strings |
| `Utils.HexExamples` | src/test/java/com/example/demo/utils/UtilsTest.java:20-25 | the empty input gives "", U+0000 gives "00", U+1F3D gives "e1bcbd", and U+1F3D U+1F5B gives "e1bcbde1bd9b" |
| `Utils.ByteExamples` | src/test/java/com/example/demo/utils/UtilsTest.java:22-24 | the two-digit renderings of the bytes of those test inputs, negative bytes included |
| `Text.IsJavaWhitespace` | src/main/java/com/example/demo/service/TokenServiceImpl.java:54-59 | `Character.isWhitespace`, which `hasText` tests: space, tab, line feed and carriage return are whitespace, the three no-break spaces are not |
| `Text.HasText` | src/main/java/com/example/demo/service/TokenServiceImpl.java:54-59 | `hasText`: a string with text is non-null and non-empty; "" and " " have none |
| `Text.NotBlank` | src/main/java/com/example/demo/config/SecurityProperties.java:25 | `@NotBlank`: a non-blank string is non-empty |
| `Text.NotBlankIffTrimmed` | src/main/java/com/example/demo/config/SecurityProperties.java:38 | both directions: a string is non-blank iff `trim()` leaves something |
| `Text.Utf16Length` | src/main/java/com/example/demo/config/SecurityProperties.java:22 | the length `@Size` measures: between the number of characters and twice it, and equal to it when no character is above U+FFFF |
| `Config.SecretLengthInCodeUnits` | src/main/java/com/example/demo/config/SecurityProperties.java:22 | 32 characters above U+FFFF meet the 64 bound, 63 characters below it do not |
| `Config.ValidToken` | src/main/java/com/example/demo/config/SecurityProperties.java:38-42 | the `@NotBlank` constraint on a token entry: a valid entry has a non-empty cookie name (the expiration is never null by typing) |
| `Config.Valid` | src/main/java/com/example/demo/config/SecurityProperties.java:22-42 | the declared constraints: a valid configuration has a secret of at least 64 UTF-16 code units (so at least 32 characters), a non-blank issuer and non-blank cookie names |
| `Tokens.Verify` | src/main/java/com/example/demo/service/TokenServiceImpl.java:41-43 | the verifier at a given instant: claims are returned iff the token decodes under the secret, its issuer is the configured one and it is not expired at that instant; they are then exactly the decoded claims |
| `Tokens.VerifyLater` | src/main/java/com/example/demo/service/TokenServiceImpl.java:41-49 | a token that passes the verifier still passes it, with the same claims, at any instant before its expiry second |
| `Tokens.GenerateToken` | src/main/java/com/example/demo/service/TokenServiceImpl.java:77-95 | the token carries the requested type; its duration is the configured expiration; its expiry is `now` plus that; under a lawful library and a non-empty secret the signed value decodes to exactly the claims written (issuer, issuedAt, expiresAt, subject, type, fingerprint hash) |
| `Tokens.GenerateAccessToken` | src/main/java/com/example/demo/service/TokenServiceImpl.java:69-71 | the token is tagged ACCESS, uses the access settings for duration and expiry, and decodes to ACCESS claims for the subject |
| `Tokens.GenerateRefreshToken` | src/main/java/com/example/demo/service/TokenServiceImpl.java:73-75 | the token is tagged REFRESH, uses the refresh settings for duration and expiry, and decodes to REFRESH claims for the subject |
| `Tokens.GetUsernameFromToken` | src/main/java/com/example/demo/service/TokenServiceImpl.java:48-50 | a subject is returned exactly when a token is present and passes the verifier, and it is the verified token's subject; otherwise the call throws (`None`) |
| `Tokens.GenerateUserFingerprintHash` | src/main/java/com/example/demo/service/TokenServiceImpl.java:107-115 | null when binding is off, whatever the input; with binding on it throws IllegalArgumentException exactly when the input has no text; any hash returned is 64 lower-case hex characters |
| `Tokens.ValidateToken` | src/main/java/com/example/demo/service/TokenServiceImpl.java:52-67 | fail-closed: true only for a token with text that passes the verifier (signature, issuer, expiry) |
| `Tokens.GenerateUserFingerprint` | src/main/java/com/example/demo/service/TokenServiceImpl.java:98-105 | null when binding is off; otherwise the hex of 50 random bytes: 100 lower-case hex characters |
| `Tokens.FingerprintShapeHashes` | src/main/java/com/example/demo/service/CookieServiceImpl.java:28-29 | whatever `generateUserFingerprint` returns can be hashed without exception, the null of the disabled case included |
| `Tokens.ValidateTokenIff` | src/main/java/com/example/demo/service/TokenServiceImpl.java:52-67 | both directions: validation succeeds iff the token has text, passes the verifier, and, with binding on, the presented fingerprint and the hash claim have text and the claim equals hex(SHA3-256(fingerprint)) |
| `Tokens.ValidTokenHasUsername` | src/main/java/com/example/demo/service/TokenServiceImpl.java:48-55 | after a successful validation at the same instant, `getUsernameFromToken` returns the verified subject and does not throw |
| `Tokens.IssuedTokenVerifies` | src/test/java/com/example/demo/services/TokenServiceTest.java:253-285 | an issued token passes the verifier before its expiry, has text, and yields exactly the subject given at issuance, "" and "  " included |
| `Tokens.IssuedTokenValidates` | src/test/java/com/example/demo/services/TokenServiceTest.java:219-250 | issuing with hash(fp) and validating with fp succeeds before expiry; with binding off any presented fingerprint, null included, succeeds |
| `Tokens.EmptySecretRejectsAll` | src/main/java/com/example/demo/service/TokenServiceImpl.java:40-67 | under the empty secret (an empty HMAC key) every token fails validation and no subject can be read |
| `Tokens.BindingOffIgnoresFingerprint` | src/main/java/com/example/demo/service/TokenServiceImpl.java:56-62 | with binding off the presented fingerprint does not change the validation result |
| `Tokens.FingerprintMismatchRejected` | src/main/java/com/example/demo/service/TokenServiceImpl.java:56-61 | with binding on, a bound token is refused for a fingerprint whose digest differs |
| `Tokens.ExpiredTokenRejected` | src/test/java/com/example/demo/services/TokenServiceTest.java:93-116 | a token past its expiry, such as one issued with a negative expiration, fails validation and its subject cannot be read |
| `Tokens.ExpiryBoundary` | src/main/java/com/example/demo/service/TokenServiceImpl.java:82-83 | a token issued for d seconds validates at now + d - 1 and not at now + d + 1 |
| `Tokens.ShortSecretStillWorks` | src/main/java/com/example/demo/config/SecurityProperties.java:15-42 | a configuration with the secret "secret" violates the declared constraints, yet the services issue and validate tokens with it |
| `Cookies.TokenCookieName` | src/main/java/com/example/demo/service/CookieServiceImpl.java:52-59 | with the prefix on, `__Host-` followed by the configured name of the type; with it off, the configured name itself |
| `Cookies.TokenCookie` | src/main/java/com/example/demo/service/CookieServiceImpl.java:61-68 | the token directive: named by `TokenCookieName`, valued with the token string, Max-Age the token's duration, attributes copied from the configuration |
| `Cookies.DeleteCookie` | src/main/java/com/example/demo/service/CookieServiceImpl.java:81-91 | an expiring directive (empty value, Max-Age 0) under the given name; a user agent accepts it under either prefix when the configuration sets Secure, path "/" and no domain with text (so no Domain attribute is written) |
| `Cookies.IssuedCookies` | src/main/java/com/example/demo/service/CookieServiceImpl.java:28-38 | the directives for a given fingerprint: 2 or 3 of them, named access then refresh, then the hardened fingerprint cookie when binding is on |
| `Cookies.CreateCookie` | src/main/java/com/example/demo/service/CookieServiceImpl.java:51-70 | the name is built in a buffer (optional `__Host-`, then the type's configured name) and starts with `__Host-` when the prefix is enabled; the value is the token string; Max-Age is the token's duration; the other attributes come from the configuration |
| `Cookies.CreateHardenedCookie` | src/main/java/com/example/demo/service/CookieServiceImpl.java:72-79 | the fingerprint cookie's name has the `__Secure-` prefix and never `__Host-`, and a user agent accepts the cookie under the prefix rules whatever the configuration |
| `Cookies.DeleteCookies` | src/main/java/com/example/demo/service/CookieServiceImpl.java:41-47 | exactly three directives, named access, refresh and `__Secure-Fpg` in that order (never prefixed); each has an empty value, Max-Age 0 and the configured attributes |
| `Cookies.GenerateCookies` | src/main/java/com/example/demo/service/CookieServiceImpl.java:26-39 | 2 directives with binding off and 3 with it on, equal to `IssuedCookies` for some fingerprint of the generated shape |
| `Cookies.IssuedCookiesLayout` | src/test/java/com/example/demo/services/CookieServiceTest.java:104-114 | order access, refresh, then fingerprint; token names, Max-Age and configured attributes; the fingerprint cookie carries the raw fingerprint, no Max-Age, HttpOnly, Secure, SameSite=Strict |
| `Cookies.IssuedCookiesBound` | src/main/java/com/example/demo/service/CookieServiceImpl.java:28-36 | both tokens carry the same hash claim, hex(SHA3-256) of the third cookie's value (absent when binding is off); presented with that value, each validates before its expiry and fails after it |
| `Cookies.TokenCookieNameHostPrefix` | src/main/java/com/example/demo/service/CookieServiceImpl.java:52-59 | a token cookie name starts with `__Host-` iff the prefix is enabled, and ends with the configured name of its type |
| `Cookies.HostPrefixedCookieAcceptance` | src/main/java/com/example/demo/service/CookieServiceImpl.java:61-68 | with the prefix on, a user agent accepts a token cookie iff the configuration sets Secure, path "/" and no domain with text; an empty domain writes no Domain attribute |
| `Cookies.DeleteCookiesMissHostCookies` | src/main/java/com/example/demo/service/CookieServiceImpl.java:41-47 | as written, with the prefix on, no deletion directive names the access cookie that login set |
| `Cookies.FingerprintDeletionIgnoredWhenInsecure` | src/main/java/com/example/demo/service/CookieServiceImpl.java:81-90 | as written, with Secure off, the fingerprint deletion breaks the `__Secure-` rule while the cookie it should delete met it |
| `Cookies.DeleteIssuedCookies` | src/main/java/com/example/demo/service/CookieServiceImpl.java:41-47 | corrected logout: three directives, each with an empty value and Max-Age 0 |
| `Cookies.DeleteIssuedCookiesCoverIssued` | src/main/java/com/example/demo/service/CookieServiceImpl.java:26-47 | corrected logout: every cookie login sets has a deletion with the same name, path and domain, accepted by a user agent whenever the cookie was |
| `Filter.FindCookieValue` | src/main/java/com/example/demo/config/TokenAuthenticationFilter.java:75-79 | no value iff no cookie has the name; otherwise the value of a cookie with that name, the first such one |
| `Filter.ExtractCookieValue` | src/main/java/com/example/demo/config/TokenAuthenticationFilter.java:72-82 | null when there is no cookie array or no cookie of that name; otherwise the value of a cookie of that name |
| `Filter.SetCookieHeaders` | src/main/java/com/example/demo/config/TokenAuthenticationFilter.java:56 | one Set-Cookie header per directive, in order |
| `Filter.DecideNamed` | src/main/java/com/example/demo/config/TokenAuthenticationFilter.java:44-60 | the access token is validated first, with the fingerprint cookie; a principal is the access token's subject when it validated, otherwise the refresh token's when that validated; headers only when the access token failed and the refresh token passed |
| `Filter.Decide` | src/main/java/com/example/demo/config/TokenAuthenticationFilter.java:40-61 | the decision as written: the first call validates the cookie of the configured access name with the fingerprint cookie, and a completed run ends by continuing the chain |
| `Filter.DecideIntended` | src/main/java/com/example/demo/service/CookieServiceImpl.java:52-59 | the corrected decision: the first call validates the cookie of the name login gives the access token |
| `Filter.AccessOutcome` | src/main/java/com/example/demo/config/TokenAuthenticationFilter.java:50-52 | after a valid access token: no header, the principal is that token's subject, the run completes iff the subject can be read, and neither a validation nor cookie generation follows |
| `Filter.RefreshOutcome` | src/main/java/com/example/demo/config/TokenAuthenticationFilter.java:53-60 | after an invalid access token: the refresh token is validated next; if it fails the run completes anonymously with no header; a principal is the refresh token's subject and comes with that user's generated directives as headers |
| `Filter.AuthFilter.constructor` | src/main/java/com/example/demo/config/TokenAuthenticationFilter.java:30-36 | the filter holds exactly the token service, cookie service and settings it is given, and starts with no headers, no principal and an empty trace |
| `Filter.AuthFilter.Authenticate` | src/main/java/com/example/demo/config/TokenAuthenticationFilter.java:63-70 | the user is loaded by name and becomes the principal; the headers do not change |
| `Filter.AuthFilter.AddSetCookieHeaders` | src/main/java/com/example/demo/config/TokenAuthenticationFilter.java:56 | the headers grow by one Set-Cookie header per directive, in order; nothing else changes |
| `Filter.AuthFilter.DoFilterInternal` | src/main/java/com/example/demo/config/TokenAuthenticationFilter.java:40-61 | the headers added, the principal set, the calls made and normal completion are exactly those of `Decide` |
| `Filter.AuthFilter.AccessBranch` | src/main/java/com/example/demo/config/TokenAuthenticationFilter.java:50-52 | after a valid access token: the effect of `AccessOutcome` |
| `Filter.AuthFilter.RefreshBranch` | src/main/java/com/example/demo/config/TokenAuthenticationFilter.java:53-60 | after an invalid access token: the effect of `RefreshOutcome` |
| `Filter.AccessPath` | src/test/java/com/example/demo/config/TokenAuthenticationFilterTest.java:74-96 | valid access token: the principal is its subject, no header is added, no cookies are generated, and the refresh token is never validated |
| `Filter.AccessPathThrows` | src/main/java/com/example/demo/config/TokenAuthenticationFilter.java:38-52 | a valid access token whose subject cannot be read: the exception escapes, nobody is authenticated and the chain is not continued |
| `Filter.RefreshPath` | src/main/java/com/example/demo/config/TokenAuthenticationFilter.java:53-57 | invalid access and valid refresh token: the principal is the refresh token's subject, the headers are its generated directives in order, and cookies are generated once, then the user is loaded, then the chain continues |
| `Filter.AnonymousPath` | src/test/java/com/example/demo/config/TokenAuthenticationFilterTest.java:55-72 | neither token valid: exactly two validations, then the chain; no lookup, no cookie generation, no principal, no header |
| `Filter.DecideInvariants` | src/main/java/com/example/demo/config/TokenAuthenticationFilter.java:48-53 | headers are added only when the access token failed and the refresh token passed; every validation uses the same fingerprint cookie value |
| `Filter.DecideTrace` | src/main/java/com/example/demo/config/TokenAuthenticationFilter.java:60-69 | a principal is set only after loading that very name; the chain is continued exactly once, last, precisely when the run completes |
| `Filter.ServicePortsComplete` | src/main/java/com/example/demo/config/TokenAuthenticationFilter.java:50-60 | with the real token engine and every verifier call at one instant, no exception escapes: every request completes and continues the chain |
| `Filter.HandleRequest` | src/main/java/com/example/demo/config/TokenAuthenticationFilter.java:30-61 | a filter built over the token engine handles one request: it completes, and its principal and headers are those `Decide` gives |
| `Filter.ServicePortsCompleteWhileUnexpired` | src/main/java/com/example/demo/config/TokenAuthenticationFilter.java:50-60 | with the subject read at a second instant, a request completes provided neither of its own token cookies that passes the verifier expires before that instant |
| `Filter.FreshAccessTokenReadLater` | src/main/java/com/example/demo/config/TokenAuthenticationFilter.java:50-52 | a request carrying an access token issued at `now` completes whenever the subject is read before that token expires, however long after the validation |
| `Filter.ExpiryBetweenCallsEscapes` | src/main/java/com/example/demo/service/TokenServiceImpl.java:48-55 | as written, when the access token's expiry second passes between `validateToken` and `getUsernameFromToken`, the request is not completed, nobody is authenticated and the chain is not continued |
| `Filter.JarOf` | src/main/java/com/example/demo/config/TokenAuthenticationFilter.java:73 | the cookie array a browser sends back after storing a list of directives holds one name/value pair per directive, in order |
| `Filter.JarLookup` | src/main/java/com/example/demo/config/TokenAuthenticationFilter.java:75-79 | looking up a name finds the value of the first directive of that name |
| `Filter.JarMissing` | src/main/java/com/example/demo/config/TokenAuthenticationFilter.java:75-79 | looking up a name no directive has finds nothing |
| `Filter.IssuedJarLookups` | src/main/java/com/example/demo/config/TokenAuthenticationFilter.java:44-48 | with the prefix off, the filter reads back the access token, the refresh token and the fingerprint (if any) that login set |
| `Filter.LayoutLookups` | src/main/java/com/example/demo/config/TokenAuthenticationFilter.java:44-48 | the same lookups on any directives laid out access, refresh, optional fingerprint |
| `Filter.FingerprintLookup` | src/main/java/com/example/demo/config/TokenAuthenticationFilter.java:48 | the fingerprint lookup finds the third directive's value when there is one, and nothing otherwise |
| `Filter.IntendedLoginThenAccess` | src/main/java/com/example/demo/service/CookieServiceImpl.java:52-59 | corrected filter: after login, a request whose verifier calls all fall before the access token expires is authenticated as the login subject with no new cookie, with or without the `__Host-` prefix |
| `Filter.DecideIntendedWithoutPrefix` | src/main/java/com/example/demo/config/TokenAuthenticationFilter.java:44-47 | with the prefix off, the filter as written and the corrected one decide alike |
| `Filter.LoginThenAccess` | src/main/java/com/example/demo/config/TokenAuthenticationFilter.java:50-52 | after login, a request whose verifier calls all fall before the access token expires is authenticated as the login subject with no new cookie |
| `Filter.LoginThenRefresh` | src/main/java/com/example/demo/config/TokenAuthenticationFilter.java:53-57 | when the validations fall after the access token expires and before the refresh token does, and the subject is read before the refresh token expires, the request is authenticated as the login subject and all cookies are rotated |
| `Filter.PrefixedLoginIsNeverRead` | src/main/java/com/example/demo/config/TokenAuthenticationFilter.java:44-47 | as written, with the prefix on, neither token cookie that login set is found |
| `Filter.PrefixedSessionIsAnonymous` | src/main/java/com/example/demo/config/TokenAuthenticationFilter.java:44-53 | as written, with the prefix on, a request carrying the login cookies stays anonymous and gets no cookie |
| `Filter.FilterScenarios` | src/test/java/com/example/demo/config/TokenAuthenticationFilterTest.java:55-131 | the three unit-test scenarios (no cookie, valid access cookie, valid refresh cookie) give the outcomes the tests assert |

## Left out

- HMAC-SHA512 signing and the JWT encoding (base64url, JSON, millisecond truncation of `iat`/`exp`) belong to the token library. They are the abstract `Jwt.JwtLibrary` with the laws in `Jwt.Lawful`.
- SHA3-256 is an arbitrary function returning 32 bytes. The UTF-8 encoding of the input is inside it.
- `java.time.Clock` is the integer parameter `now`, in whole seconds. Sub-second instants are not modelled.
- The verifier reads the system clock, not the injected `Clock`. The model gives it instants of its own: one for both validations of a request and one for reading the subject. That the two validations may straddle a second is not modelled.
- Tokens.SecureRandom.NextBytes: the random generator is a nondeterministic choice of every byte, so it promises nothing to state; the fingerprint lemmas hold for any bytes it returns. Thread safety is not modelled.
- The verifier's issued-at check is left out: `Tokens.Verify` accepts a token presented before its `iat`, and `Tokens.IssuedTokenVerifies` holds for instants before issuance too.
- `generateCookies` issues both tokens at one instant `now`. The code reads the clock once per `generateToken` call.
- `ResponseCookie` validates names, values, paths and domains when `createCookie`, `createHardenedCookie` and `deleteCookie` build a cookie. It throws IllegalArgumentException for, say, a cookie name with a space, which `@NotBlank` allows. The model builds a directive for any input and `CookiePort.generateCookies` always returns, so this exception, and its escape from the filter on the refresh path, is not modelled.
- Overflow of `Instant.plusSeconds` (a `DateTimeException` for huge expirations) and the 64-bit range of `Long` expirations are not modelled. Integers are unbounded.
- Tokens.GenerateToken: with an empty secret the code throws (the HMAC key may not be empty); the model still returns a token, and promises its round trip only under a non-empty secret. No verifier accepts such a token (`Tokens.EmptySecretRejectsAll`).
- The request scheme and the default path are not modelled. `PrefixRulesHold` and the acceptance lemmas assume a secure (https) origin, where a user agent may store Secure cookies. Comparing `path == None` on both sides stands for equal default paths, which holds for the login and logout endpoints of one directory only.
- One `AuthFilter` instance stands for one request. Its headers, principal and trace are that request's response and security context; the servlet container's per-request objects are not modelled.
- Tokens.ExpiryBoundary: says nothing about validity at the expiry second itself. The verifier has no leeway (TokenServiceImpl.java:41-43 sets none); the library's comparison of truncated instants decides that second, and its source is not part of this model.
- Spring's `ResponseCookie` rendering to a header string (attribute order, `Expires`) is not modelled. Directives are records, and a header holds the record.
- `NoSuchAlgorithmException` from `MessageDigest.getInstance` is not modelled, because SHA3-256 is always available.
- Logging of validation failures is not modelled.
- `loadUserByUsername` is modelled as always succeeding. For an unknown username the repository returns null and `loadUserByUsername` dereferences it, so a NullPointerException escapes the filter; this is not modelled. The user's authorities and the `WebAuthenticationDetailsSource` details are left out. The credential store is not part of this model.
- Null configuration fields (the unit tests mock an issuer of null) are not modelled. Strings in `SecurityProperties` are non-null, except the three cookie attributes.
- `SecurityConfig.java`, `SecurityBean.java`, `AuthController.java`, `UserRepository.java` and `CustomUserDetailsServiceImpl.java` are framework wiring, routing and the credential store. They are not part of this model.
- `OncePerRequestFilter` dispatch and what the chain does after the filter are not modelled. The chain is one `ChainContinued` call in the trace.

## Findings

| source | as written | input that shows it | evidently intended | confidence | as-written member | corrected member |
|---|---|---|---|---|---|---|
| src/main/java/com/example/demo/service/CookieServiceImpl.java:41-47 | logout deletes the bare configured names | prefix enabled: login sets `__Host-access`, logout expires only `access` | delete each cookie under the name login gave it | high, not executed | `Cookies.DeleteCookiesMissHostCookies` | `Cookies.DeleteIssuedCookiesCoverIssued` |
| src/main/java/com/example/demo/service/CookieServiceImpl.java:81-90 | the fingerprint deletion uses the configured Secure flag | `secure = false`: `__Secure-Fpg` with Max-Age 0 and no Secure is refused under section 4.1.3.1 of RFC 6265bis | delete the fingerprint cookie with the hardened attributes it was set with | medium, not executed | `Cookies.FingerprintDeletionIgnoredWhenInsecure` | `Cookies.DeleteIssuedCookiesCoverIssued` |
| src/main/java/com/example/demo/config/TokenAuthenticationFilter.java:44-47 | the filter looks up the bare configured names | prefix enabled: after login the request carries `__Host-access` and `__Host-refresh`, the filter reads `access` and `refresh` and finds nothing | look up the names `createCookie` gives the token cookies | high, not executed | `Filter.PrefixedSessionIsAnonymous` | `Filter.IntendedLoginThenAccess` |
