/**
 * WebSecurityConfig: the route table of the security filter chain, and the chain itself:
 * the bearer filter first (at the AUTHENTICATION position), then the logout filter that
 * ServerHttpSecurity installs by default, then the route authorization.
 * No security context repository is used, so nothing about a caller outlives its request.
 */
module SecurityConfig {
  import opened Wrappers
  import Http
  import Jwt
  import AuthFilter

  /** A pathMatchers(method, pattern) entry, or anyExchange(). */
  datatype Matcher = Route(verb: Http.HttpMethod, path: string) | AnyExchange

  datatype Access = PermitAll | RequireAuthenticated

  datatype Rule = Rule(matcher: Matcher, access: Access)

  /** authorizeExchange, in declaration order. */
  const Rules: seq<Rule> := [
    Rule(Route(Http.POST, "/users"), PermitAll),
    Rule(Route(Http.POST, "/login"), PermitAll),
    Rule(Route(Http.GET, "/users/stream"), PermitAll),
    Rule(AnyExchange, RequireAuthenticated)
  ]

  /** A literal pattern matches its own path only, and only for its method. */
  predicate Matches(m: Matcher, req: Http.Request) {
    match m
    case AnyExchange => true
    case Route(verb, path) => req.verb == verb && req.path == path
  }

  /** The first rule whose matcher matches decides; with none, access is denied. */
  function FirstMatch(rules: seq<Rule>, req: Http.Request): Option<Access> {
    if rules == [] then None
    else if Matches(rules[0].matcher, req) then Some(rules[0].access)
    else FirstMatch(rules[1..], req)
  }

  predicate Permitted(req: Http.Request) {
    FirstMatch(Rules, req) == Some(PermitAll)
  }

  datatype AccessDecision = Granted | Denied

  /** The authorization step: permitAll always grants; authenticated() grants only to an
      authentication marked authenticated. */
  function Authorize(req: Http.Request, auth: Option<AuthFilter.Authentication>): AccessDecision {
    match FirstMatch(Rules, req)
    case None => Denied
    case Some(PermitAll) => Granted
    case Some(RequireAuthenticated) => if auth.Some? && auth.value.authenticated then Granted else Denied
  }

  /** The default logout filter's matcher: POST /logout. */
  predicate IsLogout(req: Http.Request) {
    req.verb == Http.POST && req.path == "/logout"
  }

  /** Where the default logout success handler redirects. */
  const LogoutRedirect: string := "/login?logout"

  /** How a request leaves the security chain: rejected with 401 by the bearer filter, answered
      by the logout filter with a 302 redirect, denied by the route policy (rendered by the
      framework's entry point), or handed to the controller with the identity in its security
      context. */
  datatype Outcome = FilterRejected | LoggedOut(location: string) | AccessDenied
                   | Dispatched(authentication: Option<AuthFilter.Authentication>)

  function Process(h: Jwt.Handler, req: Http.Request, now: nat): Outcome {
    match AuthFilter.Decide(h, req, now)
    case Rejected => FilterRejected
    case Anonymous =>
      if IsLogout(req) then LoggedOut(LogoutRedirect)
      else if Authorize(req, None).Granted? then Dispatched(None) else AccessDenied
    case Authenticated(a) =>
      if IsLogout(req) then LoggedOut(LogoutRedirect)
      else if Authorize(req, Some(a)).Granted? then Dispatched(Some(a)) else AccessDenied
  }

  /** The table permits exactly POST /users, POST /login and GET /users/stream, and asks for
      authentication everywhere else; some rule always matches. */
  lemma {:induction false} RouteTable(req: Http.Request)
    ensures FirstMatch(Rules, req).Some?
    ensures Permitted(req) <==>
              (req.verb == Http.POST && req.path == "/users") ||
              (req.verb == Http.POST && req.path == "/login") ||
              (req.verb == Http.GET && req.path == "/users/stream")
    ensures !Permitted(req) ==> FirstMatch(Rules, req) == Some(RequireAuthenticated)
  {
    var rest1 := Rules[1..];
    var rest2 := rest1[1..];
    var rest3 := rest2[1..];
    assert rest3 == [Rule(AnyExchange, RequireAuthenticated)];
    assert FirstMatch(rest3, req) == Some(RequireAuthenticated);
    assert FirstMatch(rest2, req) ==
             if Matches(Route(Http.GET, "/users/stream"), req) then Some(PermitAll) else Some(RequireAuthenticated);
    assert FirstMatch(rest1, req) ==
             if Matches(Route(Http.POST, "/login"), req) then Some(PermitAll) else FirstMatch(rest2, req);
    assert FirstMatch(Rules, req) ==
             if Matches(Route(Http.POST, "/users"), req) then Some(PermitAll) else FirstMatch(rest1, req);
  }

  /** Only the method and the path of a request take part in matching. */
  lemma {:induction false} FirstMatchByRoute(rules: seq<Rule>, r1: Http.Request, r2: Http.Request)
    requires r1.verb == r2.verb && r1.path == r2.path
    ensures FirstMatch(rules, r1) == FirstMatch(rules, r2)
  {
    if rules != [] {
      FirstMatchByRoute(rules[1..], r1, r2);
    }
  }

  /** The three permitted routes reach their controller with no Authorization header at all. */
  lemma WhitelistWithoutHeader(h: Jwt.Handler, req: Http.Request, now: nat)
    requires req.authorization == []
    requires req in [Http.Request(Http.POST, "/users", []), Http.Request(Http.POST, "/login", []),
                     Http.Request(Http.GET, "/users/stream", [])]
    ensures Process(h, req, now) == Dispatched(None)
  {
    RouteTable(req);
  }

  /** Every other route reaches its controller only with an authenticated identity; without a
      token it is denied, except POST /logout, which the logout filter answers first. */
  lemma OthersNeedIdentity(h: Jwt.Handler, req: Http.Request, now: nat)
    requires !Permitted(req)
    ensures Process(h, req, now).Dispatched? ==>
              Process(h, req, now).authentication.Some? && Process(h, req, now).authentication.value.authenticated
    ensures AuthFilter.ExtractToken(req).None? ==>
              Process(h, req, now) == if IsLogout(req) then LoggedOut(LogoutRedirect) else AccessDenied
  {
    RouteTable(req);
  }

  /** POST /logout never reaches a controller: unless the bearer filter refuses its token, it is
      redirected to the login page before any authorization, with or without an identity. */
  lemma LogoutBeforeAuthorization(h: Jwt.Handler, req: Http.Request, now: nat)
    requires IsLogout(req)
    ensures !Process(h, req, now).Dispatched? && !Process(h, req, now).AccessDenied?
    ensures Process(h, req, now) == FilterRejected <==> AuthFilter.Decide(h, req, now).Rejected?
    ensures AuthFilter.ExtractToken(req).None? ==> Process(h, req, now) == LoggedOut(LogoutRedirect)
  {
  }

  /** Permission depends on the method too: the permitted paths with another method, and the
      other reads of the API, need authentication. */
  lemma MethodMatters(h: Jwt.Handler, id: string, now: nat)
    ensures !Permitted(Http.Request(Http.GET, "/users", []))
    ensures !Permitted(Http.Request(Http.GET, "/login", []))
    ensures !Permitted(Http.Request(Http.GET, "/users/" + id, [])) || id == "stream"
    ensures !Permitted(Http.Request(Http.POST, "/users/stream", []))
    ensures !Permitted(Http.Request(Http.DELETE, "/users", []))
    ensures Process(h, Http.Request(Http.GET, "/users", []), now) == AccessDenied
  {
    RouteTable(Http.Request(Http.GET, "/users", []));
    RouteTable(Http.Request(Http.GET, "/login", []));
    RouteTable(Http.Request(Http.POST, "/users/stream", []));
    RouteTable(Http.Request(Http.DELETE, "/users", []));
    var p := "/users/" + id;
    RouteTable(Http.Request(Http.GET, p, []));
    if p == "/users/stream" {
      assert p[7..] == id;
      assert "/users/stream"[7..] == "stream";
    }
  }

  /** The filter runs on every route: an invalid bearer token is refused with 401 even where
      the route would let an anonymous request through. */
  lemma InvalidTokenBeatsPermitAll(h: Jwt.Handler, req: Http.Request, now: nat)
    requires Permitted(req)
    requires AuthFilter.ExtractToken(req).Some? && !Jwt.ValidateJwt(h, AuthFilter.ExtractToken(req).value, now)
    ensures Process(h, req, now) == FilterRejected
  {
  }

  /** The identity a controller sees comes from this request's own header: its first
      Authorization value carries a token that validates now and whose subject is the principal. */
  lemma IdentityFromOwnHeader(h: Jwt.Handler, req: Http.Request, now: nat)
    requires Process(h, req, now).Dispatched? && Process(h, req, now).authentication.Some?
    ensures AuthFilter.ExtractToken(req).Some?
    ensures Jwt.ValidateJwt(h, AuthFilter.ExtractToken(req).value, now)
    ensures Jwt.ParseToken(h, AuthFilter.ExtractToken(req).value).Ok?
    ensures Process(h, req, now).authentication.value ==
              AuthFilter.Authentication(Jwt.ExtractTokenSubject(h, AuthFilter.ExtractToken(req).value), None, [], true)
  {
  }

  /** Nothing is remembered between requests: two requests with the same method, path and
      first Authorization value end the same way, whatever else they carry. */
  lemma Stateless(h: Jwt.Handler, r1: Http.Request, r2: Http.Request, now: nat)
    requires r1.verb == r2.verb && r1.path == r2.path
    requires Http.FirstAuthorization(r1) == Http.FirstAuthorization(r2)
    ensures AuthFilter.ExtractToken(r1) == AuthFilter.ExtractToken(r2)
    ensures Process(h, r1, now) == Process(h, r2, now)
  {
    FirstMatchByRoute(Rules, r1, r2);
    assert AuthFilter.Decide(h, r1, now) == AuthFilter.Decide(h, r2, now);
  }
}
