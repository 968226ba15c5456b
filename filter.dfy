/**
 * `TokenAuthenticationFilter`: per request, reads the access, refresh and
 * fingerprint cookies, then authenticates on a valid access token, rotates
 * every cookie and authenticates on a valid refresh token, or leaves the
 * request anonymous; the chain always continues.
 *
 * The token and cookie services are ports (values of functions), so the
 * filter is modelled over every implementation of them, mocks included;
 * `ServicePorts` plugs in the token engine of module Tokens. The security
 * context is the filter's `principal`, and `trace` records every call the
 * filter makes on its collaborators.
 */
module Filter {
  import opened Wrappers
  import opened Config
  import opened Jwt
  import Tokens
  import opened Cookies

  /** A `javax.servlet.http.Cookie` as received. */
  datatype RequestCookie = RequestCookie(name: string, value: string)

  /** `getCookies()` is null when the request carries no cookie header. */
  datatype Request = Request(cookies: Option<seq<RequestCookie>>)

  /** Cookie `i` is the first one named `name`. */
  predicate FirstNamed(cookies: seq<RequestCookie>, name: string, i: int) {
    0 <= i < |cookies| && cookies[i].name == name && forall j :: 0 <= j < i ==> cookies[j].name != name
  }

  /** The value of a cookie named `name`, if any: the first one, as a
      sequential `findAny` yields. */
  function FindCookieValue(cookies: seq<RequestCookie>, name: string): (v: Option<string>)
    ensures v.None? <==> forall i :: 0 <= i < |cookies| ==> cookies[i].name != name
    ensures v.Some? ==> exists i :: 0 <= i < |cookies| && cookies[i].name == name && cookies[i].value == v.value
    ensures forall i :: FirstNamed(cookies, name, i) ==> v == Some(cookies[i].value)
  {
    if |cookies| == 0 then None
    else if cookies[0].name == name then Some(cookies[0].value)
    else
      var v := FindCookieValue(cookies[1..], name);
      assert forall i :: 1 <= i < |cookies| ==> cookies[i] == cookies[1..][i - 1];
      assert v.Some? ==> exists i :: 0 <= i < |cookies[1..]| && cookies[1..][i].name == name && cookies[1..][i].value == v.value;
      v
  }

  /** `extractCookieValue`: null without a cookie array or without a cookie of
      that name, otherwise the value of the first cookie of that name. */
  function ExtractCookieValue(request: Request, name: string): (v: Option<string>)
    ensures v.None? <==> request.cookies.None? || forall i :: 0 <= i < |request.cookies.value| ==> request.cookies.value[i].name != name
    ensures v.Some? ==> exists i :: (0 <= i < |request.cookies.value|
              && request.cookies.value[i].name == name && request.cookies.value[i].value == v.value)
    ensures request.cookies.Some? ==> forall i :: FirstNamed(request.cookies.value, name, i) ==> v == Some(request.cookies.value[i].value)
  {
    match request.cookies
    case None => None
    case Some(cs) => FindCookieValue(cs, name)
  }

  /** The `TokenService` methods the filter calls; `getUsernameFromToken`
      yields `None` where it throws. */
  datatype TokenPort = TokenPort(
    validateToken: (Option<string>, Option<string>) -> bool,
    getUsernameFromToken: Option<string> -> Option<string>)

  /** The `CookieService` method the filter calls. */
  datatype CookiePort = CookiePort(generateCookies: string -> seq<Directive>)

  const SET_COOKIE: string := "Set-Cookie"

  /** A response header. */
  datatype Header = Header(name: string, value: Directive)

  /** A call of the filter on one of its collaborators, or on the chain. */
  datatype Call =
    | Validate(token: Option<string>, fingerprint: Option<string>)
    | Username(token: Option<string>)
    | IssueCookies(subject: string)
    | LoadUser(username: string)
    | ChainContinued

  /** One Set-Cookie header per directive, in order. */
  function SetCookieHeaders(ds: seq<Directive>): (hs: seq<Header>)
    ensures |hs| == |ds| && forall i :: 0 <= i < |ds| ==> hs[i] == Header(SET_COOKIE, ds[i])
  {
    seq(|ds|, i requires 0 <= i < |ds| => Header(SET_COOKIE, ds[i]))
  }

  /** What one run of the filter does: the headers it adds, the principal it
      sets, the calls it makes, and whether it returns normally (it does not
      when `getUsernameFromToken` throws). */
  datatype Outcome = Outcome(headers: seq<Header>, principal: Option<string>, calls: seq<Call>, completed: bool)

  /** The three-way decision over the cookies of the given names. */
  function DecideNamed(tokens: TokenPort, cookies: CookiePort, accessName: string, refreshName: string,
                       request: Request): (o: Outcome)
    ensures var access := ExtractCookieValue(request, accessName);
      var refresh := ExtractCookieValue(request, refreshName);
      var fp := ExtractCookieValue(request, FINGERPRINT_COOKIE_NAME);
      && |o.calls| > 0 && o.calls[0] == Validate(access, fp)
      && (o.principal.Some? ==>
            || (tokens.validateToken(access, fp) && o.principal == tokens.getUsernameFromToken(access))
            || (!tokens.validateToken(access, fp) && tokens.validateToken(refresh, fp)
                && o.principal == tokens.getUsernameFromToken(refresh)))
      && (o.headers != [] ==> !tokens.validateToken(access, fp) && tokens.validateToken(refresh, fp))
  {
    var access := ExtractCookieValue(request, accessName);
    var refresh := ExtractCookieValue(request, refreshName);
    var fingerprint := ExtractCookieValue(request, FINGERPRINT_COOKIE_NAME);
    var rest := if tokens.validateToken(access, fingerprint) then AccessOutcome(tokens, access)
                else RefreshOutcome(tokens, cookies, refresh, fingerprint);
    rest.(calls := [Validate(access, fingerprint)] + rest.calls)
  }

  /** The decision as written, a reference for `DoFilterInternal`: the token
      cookies are looked up by their configured names. */
  function Decide(tokens: TokenPort, cookies: CookiePort, props: SecurityProperties, request: Request): (o: Outcome)
    ensures |o.calls| > 0 && o.calls[0] == Validate(ExtractCookieValue(request, props.accessToken.cookieName),
                                   ExtractCookieValue(request, FINGERPRINT_COOKIE_NAME))
    ensures o.completed ==> o.calls[|o.calls| - 1] == ChainContinued
  {
    DecideNamed(tokens, cookies, props.accessToken.cookieName, props.refreshToken.cookieName, request)
  }

  /** The decision as intended: the token cookies are looked up by the names
      `createCookie` gives them, `__Host-` prefix included when enabled. */
  function DecideIntended(tokens: TokenPort, cookies: CookiePort, props: SecurityProperties, request: Request): (o: Outcome)
    ensures |o.calls| > 0 && o.calls[0] == Validate(ExtractCookieValue(request, TokenCookieName(props, ACCESS)),
                                   ExtractCookieValue(request, FINGERPRINT_COOKIE_NAME))
  {
    DecideNamed(tokens, cookies, TokenCookieName(props, ACCESS), TokenCookieName(props, REFRESH), request)
  }

  /** What follows a valid access token: its subject is authenticated. */
  function AccessOutcome(tokens: TokenPort, access: Option<string>): (o: Outcome)
    ensures o.headers == [] && o.principal == tokens.getUsernameFromToken(access)
    ensures o.completed <==> o.principal.Some?
    ensures forall c :: c in o.calls ==> !c.Validate? && !c.IssueCookies?
  {
    match tokens.getUsernameFromToken(access)
    case None => Outcome([], None, [Username(access)], false)
    case Some(u) => Outcome([], Some(u), [Username(access), LoadUser(u), ChainContinued], true)
  }

  /** What follows an invalid access token: rotation on a valid refresh
      token, and otherwise an anonymous request. */
  function RefreshOutcome(tokens: TokenPort, cookies: CookiePort, refresh: Option<string>, fingerprint: Option<string>): (o: Outcome)
    ensures |o.calls| > 0 && o.calls[0] == Validate(refresh, fingerprint)
    ensures !tokens.validateToken(refresh, fingerprint) ==> o.completed && o.principal.None? && o.headers == []
    ensures o.principal.Some? ==>
      && o.principal == tokens.getUsernameFromToken(refresh)
      && o.headers == SetCookieHeaders(cookies.generateCookies(o.principal.value))
  {
    if tokens.validateToken(refresh, fingerprint) then
      match tokens.getUsernameFromToken(refresh)
      case None => Outcome([], None, [Validate(refresh, fingerprint), Username(refresh)], false)
      case Some(u) =>
        Outcome(SetCookieHeaders(cookies.generateCookies(u)), Some(u),
                [Validate(refresh, fingerprint), Username(refresh), IssueCookies(u), LoadUser(u), ChainContinued], true)
    else
      Outcome([], None, [Validate(refresh, fingerprint), ChainContinued], true)
  }

  /** The filter at work on one request: `headers` is that request's
      response and `principal` its security context, so one instance stands
      for one request. */
  class AuthFilter {
    const tokenProvider: TokenPort
    const cookieService: CookiePort
    const props: SecurityProperties

    /** The Set-Cookie headers of the response. */
    var headers: seq<Header>
    /** The authenticated username of the security context. */
    var principal: Option<string>
    /** The calls made so far. */
    var trace: seq<Call>

    constructor (tokenProvider: TokenPort, cookieService: CookiePort, props: SecurityProperties)
      ensures this.tokenProvider == tokenProvider && this.cookieService == cookieService && this.props == props
      ensures headers == [] && principal == None && trace == []
    {
      this.tokenProvider := tokenProvider;
      this.cookieService := cookieService;
      this.props := props;
      headers := [];
      principal := None;
      trace := [];
    }

    /** Notes a call in the trace. */
    method Record(c: Call)
      modifies this
      ensures trace == old(trace) + [c]
      ensures headers == old(headers) && principal == old(principal)
    {
      trace := trace + [c];
    }

    /** `authenticate`: loads the user by name and puts it in the context. */
    method Authenticate(username: string)
      modifies this
      ensures principal == Some(username)
      ensures trace == old(trace) + [LoadUser(username)]
      ensures headers == old(headers)
    {
      Record(LoadUser(username));
      principal := Some(username);
    }

    /** `cookies.forEach(value -> addHeader(SET_COOKIE, value))`. */
    method AddSetCookieHeaders(cookies: seq<Directive>)
      modifies this
      ensures headers == old(headers) + SetCookieHeaders(cookies)
      ensures trace == old(trace) && principal == old(principal)
    {
      for i := 0 to |cookies|
        invariant headers == old(headers) + SetCookieHeaders(cookies[..i])
        invariant trace == old(trace) && principal == old(principal)
      {
        assert SetCookieHeaders(cookies[..i + 1]) == SetCookieHeaders(cookies[..i]) + [Header(SET_COOKIE, cookies[i])];
        headers := headers + [Header(SET_COOKIE, cookies[i])];
      }
      assert cookies[..|cookies|] == cookies;
    }

    /** `doFilterInternal`; `completed` is false when an exception escapes,
        and the chain is then not continued. */
    method DoFilterInternal(request: Request) returns (completed: bool)
      modifies this
      ensures completed == Decide(tokenProvider, cookieService, props, request).completed
      ensures headers == old(headers) + Decide(tokenProvider, cookieService, props, request).headers
      ensures trace == old(trace) + Decide(tokenProvider, cookieService, props, request).calls
      ensures var p := Decide(tokenProvider, cookieService, props, request).principal;
        principal == if p.Some? then p else old(principal)
    {
      var jwtAccessToken := ExtractCookieValue(request, props.accessToken.cookieName);
      var jwtRefreshToken := ExtractCookieValue(request, props.refreshToken.cookieName);
      var fingerprint := ExtractCookieValue(request, FINGERPRINT_COOKIE_NAME);
      Record(Validate(jwtAccessToken, fingerprint));
      ghost var trace1 := trace;
      if tokenProvider.validateToken(jwtAccessToken, fingerprint) {
        completed := AccessBranch(jwtAccessToken);
        assert trace == trace1 + AccessOutcome(tokenProvider, jwtAccessToken).calls;
      } else {
        completed := RefreshBranch(jwtRefreshToken, fingerprint);
        assert trace == trace1 + RefreshOutcome(tokenProvider, cookieService, jwtRefreshToken, fingerprint).calls;
      }
    }

    /** `doFilterInternal` after a valid access token. */
    method AccessBranch(jwtAccessToken: Option<string>) returns (completed: bool)
      modifies this
      ensures var o := AccessOutcome(tokenProvider, jwtAccessToken);
        && completed == o.completed && headers == old(headers) + o.headers && trace == old(trace) + o.calls
        && principal == (if o.principal.Some? then o.principal else old(principal))
    {
      Record(Username(jwtAccessToken));
      var username := tokenProvider.getUsernameFromToken(jwtAccessToken);
      if username.None? {
        return false;
      }
      Authenticate(username.value);
      Record(ChainContinued);
      return true;
    }

    /** `doFilterInternal` after an invalid access token. */
    method RefreshBranch(jwtRefreshToken: Option<string>, fingerprint: Option<string>) returns (completed: bool)
      modifies this
      ensures var o := RefreshOutcome(tokenProvider, cookieService, jwtRefreshToken, fingerprint);
        && completed == o.completed && headers == old(headers) + o.headers && trace == old(trace) + o.calls
        && principal == (if o.principal.Some? then o.principal else old(principal))
    {
      Record(Validate(jwtRefreshToken, fingerprint));
      if tokenProvider.validateToken(jwtRefreshToken, fingerprint) {
        Record(Username(jwtRefreshToken));
        var username := tokenProvider.getUsernameFromToken(jwtRefreshToken);
        if username.None? {
          return false;
        }
        Record(IssueCookies(username.value));
        var cookies := cookieService.generateCookies(username.value);
        AddSetCookieHeaders(cookies);
        Authenticate(username.value);
      }
      Record(ChainContinued);
      return true;
    }
  }

  /** A valid access token: the user is its subject, the refresh token is not
      consulted, no cookie is generated and no header added. */
  lemma AccessPath(tokens: TokenPort, cookies: CookiePort, props: SecurityProperties, request: Request)
    requires var access := ExtractCookieValue(request, props.accessToken.cookieName);
      tokens.validateToken(access, ExtractCookieValue(request, FINGERPRINT_COOKIE_NAME))
      && tokens.getUsernameFromToken(access).Some?
    ensures var o := Decide(tokens, cookies, props, request);
      var access := ExtractCookieValue(request, props.accessToken.cookieName);
      && o.completed && o.headers == [] && o.principal == tokens.getUsernameFromToken(access)
      && (forall c :: c in o.calls ==> !c.IssueCookies? && (c.Validate? ==> c.token == access))
  {
  }

  /** A valid access token whose subject cannot be read: the exception
      escapes, nobody is authenticated and the chain is not continued. */
  lemma AccessPathThrows(tokens: TokenPort, cookies: CookiePort, props: SecurityProperties, request: Request)
    requires var access := ExtractCookieValue(request, props.accessToken.cookieName);
      tokens.validateToken(access, ExtractCookieValue(request, FINGERPRINT_COOKIE_NAME))
      && tokens.getUsernameFromToken(access).None?
    ensures var o := Decide(tokens, cookies, props, request);
      !o.completed && o.principal == None && o.headers == [] && ChainContinued !in o.calls
  {
  }

  /** The refresh path, taken only when the access token fails and the refresh
      token passes: the user is the refresh token's subject, cookies are
      generated once for that user and every directive becomes a header, in
      order, before the user is authenticated. */
  lemma RefreshPath(tokens: TokenPort, cookies: CookiePort, props: SecurityProperties, request: Request)
    requires var fp := ExtractCookieValue(request, FINGERPRINT_COOKIE_NAME);
      var refresh := ExtractCookieValue(request, props.refreshToken.cookieName);
      && !tokens.validateToken(ExtractCookieValue(request, props.accessToken.cookieName), fp)
      && tokens.validateToken(refresh, fp)
      && tokens.getUsernameFromToken(refresh).Some?
    ensures var o := Decide(tokens, cookies, props, request);
      var u := tokens.getUsernameFromToken(ExtractCookieValue(request, props.refreshToken.cookieName)).value;
      && o.completed && o.principal == Some(u)
      && o.headers == SetCookieHeaders(cookies.generateCookies(u))
      && o.calls[|o.calls| - 3..] == [IssueCookies(u), LoadUser(u), ChainContinued]
      && (forall c :: c in o.calls[..|o.calls| - 3] ==> !c.IssueCookies? && !c.LoadUser?)
  {
  }

  /** Neither token valid: both are validated, nobody is looked up or
      authenticated, no cookie is generated, and the chain continues. */
  lemma AnonymousPath(tokens: TokenPort, cookies: CookiePort, props: SecurityProperties, request: Request)
    requires var fp := ExtractCookieValue(request, FINGERPRINT_COOKIE_NAME);
      && !tokens.validateToken(ExtractCookieValue(request, props.accessToken.cookieName), fp)
      && !tokens.validateToken(ExtractCookieValue(request, props.refreshToken.cookieName), fp)
    ensures var o := Decide(tokens, cookies, props, request);
      var fp := ExtractCookieValue(request, FINGERPRINT_COOKIE_NAME);
      && o.completed && o.headers == [] && o.principal == None
      && o.calls == [Validate(ExtractCookieValue(request, props.accessToken.cookieName), fp),
                     Validate(ExtractCookieValue(request, props.refreshToken.cookieName), fp), ChainContinued]
  {
  }

  /** Invariants of every run: headers only on the refresh path, and both
      validations see the same fingerprint cookie. */
  lemma DecideInvariants(tokens: TokenPort, cookies: CookiePort, props: SecurityProperties, request: Request)
    ensures var o := Decide(tokens, cookies, props, request);
      var fp := ExtractCookieValue(request, FINGERPRINT_COOKIE_NAME);
      && (o.headers != [] ==>
            !tokens.validateToken(ExtractCookieValue(request, props.accessToken.cookieName), fp)
            && tokens.validateToken(ExtractCookieValue(request, props.refreshToken.cookieName), fp))
      && (forall c :: c in o.calls && c.Validate? ==> c.fingerprint == fp)
  {
  }

  /** The shape of every trace: a principal only after a lookup of that very
      name, and the chain continued exactly once, last, precisely when the
      run completes. */
  lemma DecideTrace(tokens: TokenPort, cookies: CookiePort, props: SecurityProperties, request: Request)
    ensures var o := Decide(tokens, cookies, props, request);
      && (o.principal.Some? ==> LoadUser(o.principal.value) in o.calls)
      && (o.completed <==> |o.calls| > 0 && o.calls[|o.calls| - 1] == ChainContinued)
      && (forall i :: 0 <= i < |o.calls| - 1 ==> o.calls[i] != ChainContinued)
  {
    var access := ExtractCookieValue(request, props.accessToken.cookieName);
    var refresh := ExtractCookieValue(request, props.refreshToken.cookieName);
    var fingerprint := ExtractCookieValue(request, FINGERPRINT_COOKIE_NAME);
    var rest := if tokens.validateToken(access, fingerprint) then AccessOutcome(tokens, access)
                else RefreshOutcome(tokens, cookies, refresh, fingerprint);
    var o := Decide(tokens, cookies, props, request);
    assert o.calls == [Validate(access, fingerprint)] + rest.calls && o.principal == rest.principal;
    assert rest.principal.Some? ==> LoadUser(rest.principal.value) in rest.calls;
    assert rest.completed <==> rest.calls[|rest.calls| - 1] == ChainContinued;
    assert forall i :: 0 <= i < |rest.calls| - 1 ==> rest.calls[i] != ChainContinued;
  }

  /** The ports of the token engine. The verifier reads the system clock on
      each call: both validations are taken at `validateAt` and the subject
      is read at `usernameAt`. */
  function ServicePorts(svc: Tokens.TokenService, validateAt: int, usernameAt: int): TokenPort {
    TokenPort((t, f) => Tokens.ValidateToken(svc, validateAt, t, f), t => Tokens.GetUsernameFromToken(svc, usernameAt, t))
  }

  /** With the token engine and one instant for every verifier call, no
      exception escapes the filter: a token that validates always yields its
      subject, so every request completes. */
  lemma ServicePortsComplete(svc: Tokens.TokenService, now: int, cookies: CookiePort, request: Request)
    ensures Decide(ServicePorts(svc, now, now), cookies, svc.props, request).completed
  {
    var p := ServicePorts(svc, now, now);
    var access := ExtractCookieValue(request, svc.props.accessToken.cookieName);
    var refresh := ExtractCookieValue(request, svc.props.refreshToken.cookieName);
    var fp := ExtractCookieValue(request, FINGERPRINT_COOKIE_NAME);
    if p.validateToken(access, fp) {
      Tokens.ValidTokenHasUsername(svc, now, access, fp);
    } else if p.validateToken(refresh, fp) {
      Tokens.ValidTokenHasUsername(svc, now, refresh, fp);
    }
  }

  /** One request through a filter built over the token engine, every
      verifier call at `now`: no exception escapes, and the request is
      authenticated as `Decide` says. */
  method HandleRequest(svc: Tokens.TokenService, cookies: CookiePort, now: int, request: Request)
    returns (completed: bool, principal: Option<string>, headers: seq<Header>)
    ensures completed
    ensures var o := Decide(ServicePorts(svc, now, now), cookies, svc.props, request);
      principal == o.principal && headers == o.headers
  {
    var filter := new AuthFilter(ServicePorts(svc, now, now), cookies, svc.props);
    completed := filter.DoFilterInternal(request);
    ServicePortsComplete(svc, now, cookies, request);
    principal := filter.principal;
    headers := filter.headers;
  }

  /** A token value the filter may read a subject from at `usernameAt`: if
      it passes the verifier at `validateAt`, it has not yet expired at
      `usernameAt`. */
  ghost predicate UnexpiredWhenRead(svc: Tokens.TokenService, validateAt: int, usernameAt: int, token: Option<string>) {
    token.Some? && Tokens.Verify(svc, validateAt, token.value).Some? ==>
      usernameAt < Tokens.Verify(svc, validateAt, token.value).value.expiresAt
  }

  /** With the subject read at a later instant, a request still completes
      provided neither of its token cookies that passes the verifier expires
      in between. */
  lemma ServicePortsCompleteWhileUnexpired(svc: Tokens.TokenService, validateAt: int, usernameAt: int,
                                           cookies: CookiePort, request: Request)
    requires Lawful(svc.lib)
    requires UnexpiredWhenRead(svc, validateAt, usernameAt, ExtractCookieValue(request, svc.props.accessToken.cookieName))
    requires UnexpiredWhenRead(svc, validateAt, usernameAt, ExtractCookieValue(request, svc.props.refreshToken.cookieName))
    ensures Decide(ServicePorts(svc, validateAt, usernameAt), cookies, svc.props, request).completed
  {
    var p := ServicePorts(svc, validateAt, usernameAt);
    var access := ExtractCookieValue(request, svc.props.accessToken.cookieName);
    var refresh := ExtractCookieValue(request, svc.props.refreshToken.cookieName);
    var fp := ExtractCookieValue(request, FINGERPRINT_COOKIE_NAME);
    if p.validateToken(access, fp) {
      Tokens.VerifyLater(svc, validateAt, usernameAt, access.value);
    } else if p.validateToken(refresh, fp) {
      Tokens.VerifyLater(svc, validateAt, usernameAt, refresh.value);
    }
  }

  /** A request carrying only an access token issued at `now` completes
      whenever its subject is read before that token expires, however long
      after the validation. */
  lemma FreshAccessTokenReadLater(svc: Tokens.TokenService, cookies: CookiePort, subject: string, now: int,
                                  validateAt: int, usernameAt: int)
    requires Lawful(svc.lib) && svc.props.tokenSecret != ""
    requires usernameAt < now + svc.props.accessToken.expiration
    ensures var token := Tokens.GenerateAccessToken(svc, subject, None, now).tokenValue;
      var request := Request(Some([RequestCookie(svc.props.accessToken.cookieName, token)]));
      Decide(ServicePorts(svc, validateAt, usernameAt), cookies, svc.props, request).completed
  {
    var token := Tokens.GenerateAccessToken(svc, subject, None, now).tokenValue;
    var request := Request(Some([RequestCookie(svc.props.accessToken.cookieName, token)]));
    assert FirstNamed(request.cookies.value, svc.props.accessToken.cookieName, 0);
    ServicePortsCompleteWhileUnexpired(svc, validateAt, usernameAt, cookies, request);
  }

  /** The cookies a browser sends back after storing `ds` (scope and expiry
      aside). */
  function JarOf(ds: seq<Directive>): (r: Request)
    ensures r.cookies.Some? && |r.cookies.value| == |ds|
    ensures forall i :: 0 <= i < |ds| ==> r.cookies.value[i] == RequestCookie(ds[i].name, ds[i].value)
  {
    Request(Some(seq(|ds|, i requires 0 <= i < |ds| => RequestCookie(ds[i].name, ds[i].value))))
  }

  /** A browser sends back the value of the first directive of a name. */
  lemma JarLookup(ds: seq<Directive>, name: string, k: int)
    requires 0 <= k < |ds| && ds[k].name == name
    requires forall j :: 0 <= j < k ==> ds[j].name != name
    ensures ExtractCookieValue(JarOf(ds), name) == Some(ds[k].value)
  {
    assert FirstNamed(JarOf(ds).cookies.value, name, k);
  }

  /** A browser sends nothing under a name no directive has. */
  lemma JarMissing(ds: seq<Directive>, name: string)
    requires forall i :: 0 <= i < |ds| ==> ds[i].name != name
    ensures ExtractCookieValue(JarOf(ds), name) == None
  {
  }

  /** What the filter reads from the cookies login set, with the prefix off
      and configured names apart from the fingerprint cookie's. */
  lemma IssuedJarLookups(svc: Tokens.TokenService, subject: string, now: int, fingerprint: Option<string>)
    requires Tokens.GenerateUserFingerprintHash(svc, fingerprint).Success?
    requires !svc.props.cookie.prefixEnabled
    requires svc.props.accessToken.cookieName != FINGERPRINT_COOKIE_NAME
    requires svc.props.refreshToken.cookieName != FINGERPRINT_COOKIE_NAME
    ensures var cs := IssuedCookies(svc, subject, now, fingerprint);
      var jar := JarOf(cs);
      && ExtractCookieValue(jar, svc.props.accessToken.cookieName) == Some(cs[0].value)
      && (svc.props.accessToken.cookieName != svc.props.refreshToken.cookieName ==>
            ExtractCookieValue(jar, svc.props.refreshToken.cookieName) == Some(cs[1].value))
      && ExtractCookieValue(jar, FINGERPRINT_COOKIE_NAME) == (if svc.props.cookie.withFingerprint then fingerprint else None)
  {
    IssuedCookiesLayout(svc, subject, now, fingerprint);
    var accessName := svc.props.accessToken.cookieName;
    assert "" + accessName == accessName;
    var refreshName := svc.props.refreshToken.cookieName;
    assert "" + refreshName == refreshName;
    var fp := if svc.props.cookie.withFingerprint then fingerprint else None;
    LayoutLookups(IssuedCookies(svc, subject, now, fingerprint), accessName, refreshName, fp);
  }

  /** The lookups of `IssuedJarLookups`, on any directives of that layout. */
  lemma LayoutLookups(cs: seq<Directive>, accessName: string, refreshName: string, fingerprint: Option<string>)
    requires |cs| == if fingerprint.Some? then 3 else 2
    requires cs[0].name == accessName && cs[1].name == refreshName
    requires accessName != FINGERPRINT_COOKIE_NAME && refreshName != FINGERPRINT_COOKIE_NAME
    requires fingerprint.Some? ==> cs[2].name == FINGERPRINT_COOKIE_NAME && cs[2].value == fingerprint.value
    ensures var jar := JarOf(cs);
      && ExtractCookieValue(jar, accessName) == Some(cs[0].value)
      && (accessName != refreshName ==> ExtractCookieValue(jar, refreshName) == Some(cs[1].value))
      && ExtractCookieValue(jar, FINGERPRINT_COOKIE_NAME) == fingerprint
  {
    JarLookup(cs, accessName, 0);
    if accessName != refreshName {
      JarLookup(cs, refreshName, 1);
    }
    FingerprintLookup(cs, fingerprint);
  }

  /** The fingerprint cookie is the third directive, when there is one. */
  lemma FingerprintLookup(cs: seq<Directive>, fingerprint: Option<string>)
    requires |cs| == if fingerprint.Some? then 3 else 2
    requires cs[0].name != FINGERPRINT_COOKIE_NAME && cs[1].name != FINGERPRINT_COOKIE_NAME
    requires fingerprint.Some? ==> cs[2].name == FINGERPRINT_COOKIE_NAME && cs[2].value == fingerprint.value
    ensures ExtractCookieValue(JarOf(cs), FINGERPRINT_COOKIE_NAME) == fingerprint
  {
    if fingerprint.Some? {
      JarLookup(cs, FINGERPRINT_COOKIE_NAME, 2);
    } else {
      JarMissing(cs, FINGERPRINT_COOKIE_NAME);
    }
  }

  /** Login followed by a request before the access token expires: the
      intended filter authenticates the login subject and sets no cookie,
      with or without the `__Host-` prefix. */
  lemma IntendedLoginThenAccess(svc: Tokens.TokenService, cookies: CookiePort, subject: string, fingerprint: Option<string>,
                                now: int, at: int, at2: int)
    requires Lawful(svc.lib) && svc.props.tokenSecret != "" && Tokens.FingerprintShape(svc, fingerprint)
    requires at < now + svc.props.accessToken.expiration && at2 < now + svc.props.accessToken.expiration
    requires TokenCookieName(svc.props, ACCESS) != FINGERPRINT_COOKIE_NAME
    requires TokenCookieName(svc.props, REFRESH) != FINGERPRINT_COOKIE_NAME
    ensures Tokens.GenerateUserFingerprintHash(svc, fingerprint).Success?
    ensures var o := DecideIntended(ServicePorts(svc, at, at2), cookies, svc.props, JarOf(IssuedCookies(svc, subject, now, fingerprint)));
      o.completed && o.principal == Some(subject) && o.headers == []
  {
    Tokens.FingerprintShapeHashes(svc, fingerprint);
    var hash := Tokens.GenerateUserFingerprintHash(svc, fingerprint).value;
    var cs := IssuedCookies(svc, subject, now, fingerprint);
    var jar := JarOf(cs);
    var accessName := TokenCookieName(svc.props, ACCESS);
    IssuedCookiesLayout(svc, subject, now, fingerprint);
    LayoutLookups(cs, accessName, TokenCookieName(svc.props, REFRESH),
                  if svc.props.cookie.withFingerprint then fingerprint else None);
    var presented := ExtractCookieValue(jar, FINGERPRINT_COOKIE_NAME);
    IssuedCookiesBound(svc, subject, now, fingerprint, presented, at);
    Tokens.IssuedTokenVerifies(svc, svc.props.accessToken, subject, ACCESS, hash, now, at2);
    var ports := ServicePorts(svc, at, at2);
    var access := ExtractCookieValue(jar, accessName);
    assert ports.validateToken(access, presented);
    assert ports.getUsernameFromToken(access) == Some(subject);
  }

  /** Without the prefix the filter as written is the intended one. */
  lemma DecideIntendedWithoutPrefix(tokens: TokenPort, cookies: CookiePort, props: SecurityProperties, request: Request)
    requires !props.cookie.prefixEnabled
    ensures Decide(tokens, cookies, props, request) == DecideIntended(tokens, cookies, props, request)
  {
    assert "" + props.accessToken.cookieName == props.accessToken.cookieName;
    assert "" + props.refreshToken.cookieName == props.refreshToken.cookieName;
  }

  /** Login followed by a request before the access token expires, with the
      prefix off: the filter authenticates the login subject and sets no
      cookie. */
  lemma LoginThenAccess(svc: Tokens.TokenService, cookies: CookiePort, subject: string, fingerprint: Option<string>,
                        now: int, at: int, at2: int)
    requires Lawful(svc.lib) && svc.props.tokenSecret != "" && Tokens.FingerprintShape(svc, fingerprint)
    requires !svc.props.cookie.prefixEnabled
    requires at < now + svc.props.accessToken.expiration && at2 < now + svc.props.accessToken.expiration
    requires svc.props.accessToken.cookieName != FINGERPRINT_COOKIE_NAME
    requires svc.props.refreshToken.cookieName != FINGERPRINT_COOKIE_NAME
    ensures Tokens.GenerateUserFingerprintHash(svc, fingerprint).Success?
    ensures var o := Decide(ServicePorts(svc, at, at2), cookies, svc.props, JarOf(IssuedCookies(svc, subject, now, fingerprint)));
      o.completed && o.principal == Some(subject) && o.headers == []
  {
    assert "" + svc.props.accessToken.cookieName == svc.props.accessToken.cookieName;
    assert "" + svc.props.refreshToken.cookieName == svc.props.refreshToken.cookieName;
    IntendedLoginThenAccess(svc, cookies, subject, fingerprint, now, at, at2);
    Tokens.FingerprintShapeHashes(svc, fingerprint);
    DecideIntendedWithoutPrefix(ServicePorts(svc, at, at2), cookies, svc.props, JarOf(IssuedCookies(svc, subject, now, fingerprint)));
  }

  /** After the access token expired but before the refresh token does, the
      filter authenticates the login subject and rotates the cookies. */
  lemma LoginThenRefresh(svc: Tokens.TokenService, cookies: CookiePort, subject: string, fingerprint: Option<string>,
                         now: int, at: int, at2: int)
    requires Lawful(svc.lib) && svc.props.tokenSecret != "" && Tokens.FingerprintShape(svc, fingerprint)
    requires !svc.props.cookie.prefixEnabled
    requires now + svc.props.accessToken.expiration < at < now + svc.props.refreshToken.expiration
    requires at2 < now + svc.props.refreshToken.expiration
    requires svc.props.accessToken.cookieName != svc.props.refreshToken.cookieName
    requires svc.props.accessToken.cookieName != FINGERPRINT_COOKIE_NAME
    requires svc.props.refreshToken.cookieName != FINGERPRINT_COOKIE_NAME
    ensures Tokens.GenerateUserFingerprintHash(svc, fingerprint).Success?
    ensures var o := Decide(ServicePorts(svc, at, at2), cookies, svc.props, JarOf(IssuedCookies(svc, subject, now, fingerprint)));
      o.completed && o.principal == Some(subject) && o.headers == SetCookieHeaders(cookies.generateCookies(subject))
  {
    Tokens.FingerprintShapeHashes(svc, fingerprint);
    var hash := Tokens.GenerateUserFingerprintHash(svc, fingerprint).value;
    var cs := IssuedCookies(svc, subject, now, fingerprint);
    var jar := JarOf(cs);
    IssuedJarLookups(svc, subject, now, fingerprint);
    var presented := ExtractCookieValue(jar, FINGERPRINT_COOKIE_NAME);
    IssuedCookiesBound(svc, subject, now, fingerprint, presented, at);
    Tokens.ExpiredTokenRejected(svc, svc.props.accessToken, subject, ACCESS, hash, presented, now, at);
    Tokens.IssuedTokenVerifies(svc, svc.props.refreshToken, subject, REFRESH, hash, now, at2);
    var ports := ServicePorts(svc, at, at2);
    var access := ExtractCookieValue(jar, svc.props.accessToken.cookieName);
    var refresh := ExtractCookieValue(jar, svc.props.refreshToken.cookieName);
    assert !ports.validateToken(access, presented);
    assert ports.validateToken(refresh, presented);
    assert ports.getUsernameFromToken(refresh) == Some(subject);
    RefreshPath(ports, cookies, svc.props, jar);
  }

  /** As written, the verifier reads the clock again in
      `getUsernameFromToken`: when the access token's expiry second passes
      between its validation and that call, the exception escapes the filter
      and the chain is not continued. */
  lemma ExpiryBetweenCallsEscapes(svc: Tokens.TokenService, cookies: CookiePort, subject: string, fingerprint: Option<string>,
                                  now: int, at: int, at2: int)
    requires Lawful(svc.lib) && svc.props.tokenSecret != "" && Tokens.FingerprintShape(svc, fingerprint)
    requires !svc.props.cookie.prefixEnabled
    requires at < now + svc.props.accessToken.expiration < at2
    requires svc.props.accessToken.cookieName != FINGERPRINT_COOKIE_NAME
    requires svc.props.refreshToken.cookieName != FINGERPRINT_COOKIE_NAME
    ensures Tokens.GenerateUserFingerprintHash(svc, fingerprint).Success?
    ensures var o := Decide(ServicePorts(svc, at, at2), cookies, svc.props, JarOf(IssuedCookies(svc, subject, now, fingerprint)));
      !o.completed && o.principal == None && ChainContinued !in o.calls
  {
    Tokens.FingerprintShapeHashes(svc, fingerprint);
    var hash := Tokens.GenerateUserFingerprintHash(svc, fingerprint).value;
    var cs := IssuedCookies(svc, subject, now, fingerprint);
    var jar := JarOf(cs);
    IssuedJarLookups(svc, subject, now, fingerprint);
    var presented := ExtractCookieValue(jar, FINGERPRINT_COOKIE_NAME);
    IssuedCookiesBound(svc, subject, now, fingerprint, presented, at);
    Tokens.ExpiredTokenRejected(svc, svc.props.accessToken, subject, ACCESS, hash, presented, now, at2);
    var ports := ServicePorts(svc, at, at2);
    var access := ExtractCookieValue(jar, svc.props.accessToken.cookieName);
    assert ports.validateToken(access, presented);
    assert ports.getUsernameFromToken(access).None?;
    AccessPathThrows(ports, cookies, svc.props, jar);
  }

  /** As written, with the prefix enabled the filter looks cookies up by the
      bare configured names, so the `__Host-` cookies login set are never read
      and the session is anonymous. */
  lemma PrefixedLoginIsNeverRead(svc: Tokens.TokenService, tokens: TokenPort, cookies: CookiePort,
                                 subject: string, fingerprint: Option<string>, now: int)
    requires Tokens.GenerateUserFingerprintHash(svc, fingerprint).Success?
    requires svc.props.cookie.prefixEnabled
    requires svc.props.accessToken.cookieName != TokenCookieName(svc.props, REFRESH)
    requires svc.props.refreshToken.cookieName != TokenCookieName(svc.props, ACCESS)
    requires svc.props.accessToken.cookieName != FINGERPRINT_COOKIE_NAME
    requires svc.props.refreshToken.cookieName != FINGERPRINT_COOKIE_NAME
    ensures var jar := JarOf(IssuedCookies(svc, subject, now, fingerprint));
      && ExtractCookieValue(jar, svc.props.accessToken.cookieName).None?
      && ExtractCookieValue(jar, svc.props.refreshToken.cookieName).None?
  {
    IssuedCookiesLayout(svc, subject, now, fingerprint);
  }

  /** Hence, with the token engine, such a session is anonymous: a null token
      never validates. */
  lemma PrefixedSessionIsAnonymous(svc: Tokens.TokenService, cookies: CookiePort,
                                   subject: string, fingerprint: Option<string>, now: int, at: int, at2: int)
    requires Tokens.GenerateUserFingerprintHash(svc, fingerprint).Success?
    requires svc.props.cookie.prefixEnabled
    requires svc.props.accessToken.cookieName != TokenCookieName(svc.props, REFRESH)
    requires svc.props.refreshToken.cookieName != TokenCookieName(svc.props, ACCESS)
    requires svc.props.accessToken.cookieName != FINGERPRINT_COOKIE_NAME
    requires svc.props.refreshToken.cookieName != FINGERPRINT_COOKIE_NAME
    ensures var o := Decide(ServicePorts(svc, at, at2), cookies, svc.props, JarOf(IssuedCookies(svc, subject, now, fingerprint)));
      o.principal == None && o.headers == []
  {
    PrefixedLoginIsNeverRead(svc, ServicePorts(svc, at, at2), cookies, subject, fingerprint, now);
  }
  /** The three scenarios of the filter's unit tests, with stub ports: no
      cookie at all, a valid access cookie, and an invalid access cookie next
      to a valid refresh cookie. */
  lemma FilterScenarios(cookies: CookiePort)
    ensures var props := SecurityProperties("", "", Config.Token("accessCookieName", 0), Config.Token("refreshCookieName", 0),
                                            Cookie(false, false, false, false, None, None, None));
      var none := TokenPort((t, f) => false, t => None);
      && Decide(none, cookies, props, Request(None))
           == Outcome([], None, [Validate(None, None), Validate(None, None), ChainContinued], true)
      && (var access := TokenPort((t, f) => t == Some("tokenValue") && f == None,
                                  t => if t == Some("tokenValue") then Some("username") else None);
          Decide(access, cookies, props, Request(Some([RequestCookie("accessCookieName", "tokenValue")])))
            == Outcome([], Some("username"), [Validate(Some("tokenValue"), None), Username(Some("tokenValue")),
                                              LoadUser("username"), ChainContinued], true))
      && var refresh := TokenPort((t, f) => t == Some("refreshTokenValue") && f == None,
                                  t => if t == Some("refreshTokenValue") then Some("username") else None);
         var request := Request(Some([RequestCookie("refreshCookieName", "refreshTokenValue"),
                                      RequestCookie("accessCookieName", "accessTokenValue")]));
         var o := Decide(refresh, cookies, props, request);
         && o.principal == Some("username")
         && o.headers == SetCookieHeaders(cookies.generateCookies("username"))
         && IssueCookies("username") in o.calls
  {
    var request := Request(Some([RequestCookie("refreshCookieName", "refreshTokenValue"),
                                 RequestCookie("accessCookieName", "accessTokenValue")]));
    assert FirstNamed(request.cookies.value, "refreshCookieName", 0);
    assert FirstNamed(request.cookies.value, "accessCookieName", 1);
    assert FirstNamed([RequestCookie("accessCookieName", "tokenValue")], "accessCookieName", 0);
    assert "accessCookieName" != FINGERPRINT_COOKIE_NAME;
    assert "refreshCookieName" != FINGERPRINT_COOKIE_NAME;
  }
}
