/**
 * The pieces together: the header /login issues opens the authenticated routes for the
 * token's lifetime, as the user the login found, and a read by id through that identity only
 * ever releases that user's own record.
 */
module Flows {
  import opened Wrappers
  import Http
  import Jwt
  import Models
  import AuthFilter
  import AuthUsers
  import JavaStrings
  import SecurityConfig
  import Authentication
  import AuthApi
  import Users
  import UserApi

  /** The request a client sends with the issued Authorization header first. */
  function WithHeader(login: AuthApi.LoginResponse, verb: Http.HttpMethod, path: string, rest: seq<string>): Http.Request {
    Http.Request(verb, path, [login.authorization] + rest)
  }

  /** What the login issued: the token of the answer map, and the claims it carries. */
  lemma {:induction false} IssuedToken(h: Jwt.Handler, findByEmail: string -> Option<Models.StoredEntity>,
                                      matches: (string, string) -> bool, body: AuthApi.AuthRequest, clock: Jwt.IssueClock)
    returns (token: string)
    requires Jwt.Sound(h.jws)
    requires AuthApi.Login(h, findByEmail, matches, body, clock).LoggedIn?
    ensures var login := AuthApi.Login(h, findByEmail, matches, body, clock).response;
            && login.authorization == AuthFilter.BearerPrefix + token
            && JavaStrings.IsTrimmed(token)
            && Jwt.ParseToken(h, token) == Ok(Jwt.IssuedClaims(login.userId, clock))
            && Jwt.GenerateJwtToken(h, login.userId, clock) == Ok(token)
  {
    var outcome := Authentication.Login(h, findByEmail, matches, body.email, body.password, clock);
    var accepted := AuthUsers.PasswordCheck(findByEmail, matches, body.email, body.password);
    Authentication.IssuedMap(h, accepted, findByEmail, body.email, clock);
    var m := outcome.result;
    token := m[Authentication.TokenKey];
    var id := m[Authentication.UserIdKey];
    AuthApi.LoginHeaders(outcome);
    Jwt.RoundTrip(h, id, clock);
    Jwt.GeneratedIsCompact(h, id, clock);
  }

  /** Within the hour after login, the issued header reaches any route as the logged-in user:
      principal the user id, no credentials, no authorities (POST /logout is answered by the
      logout filter instead). */
  lemma {:induction false} LoginThenAccess(h: Jwt.Handler, findByEmail: string -> Option<Models.StoredEntity>,
                                          matches: (string, string) -> bool, body: AuthApi.AuthRequest,
                                          clock: Jwt.IssueClock, now: nat, verb: Http.HttpMethod, path: string, rest: seq<string>)
    requires Jwt.Sound(h.jws)
    requires AuthApi.Login(h, findByEmail, matches, body, clock).LoggedIn?
    requires Jwt.Ordered(clock) && now <= clock.atIssue + Jwt.LifetimeMillis - 1000
    ensures var login := AuthApi.Login(h, findByEmail, matches, body, clock).response;
            SecurityConfig.Process(h, WithHeader(login, verb, path, rest), now) ==
              if SecurityConfig.IsLogout(WithHeader(login, verb, path, rest))
              then SecurityConfig.LoggedOut(SecurityConfig.LogoutRedirect)
              else SecurityConfig.Dispatched(Some(AuthFilter.Authentication(login.userId, None, [], true)))
  {
    var login := AuthApi.Login(h, findByEmail, matches, body, clock).response;
    var token := IssuedToken(h, findByEmail, matches, body, clock);
    var req := WithHeader(login, verb, path, rest);
    AuthFilter.BearerHeaderRoundTrip(req, token);
    Jwt.FreshTokenValidity(h, login.userId, clock, now);
    assert Jwt.ValidateJwt(h, token, now);
    SecurityConfig.RouteTable(req);
  }

  /** Once the token's expiration instant has passed, the same header is refused with 401 on
      every route, the permitted ones included. */
  lemma {:induction false} ExpiredLoginRejected(h: Jwt.Handler, findByEmail: string -> Option<Models.StoredEntity>,
                                               matches: (string, string) -> bool, body: AuthApi.AuthRequest,
                                               clock: Jwt.IssueClock, now: nat, verb: Http.HttpMethod, path: string, rest: seq<string>)
    requires Jwt.Sound(h.jws)
    requires AuthApi.Login(h, findByEmail, matches, body, clock).LoggedIn?
    requires now > clock.atExpiry + Jwt.LifetimeMillis
    ensures var login := AuthApi.Login(h, findByEmail, matches, body, clock).response;
            SecurityConfig.Process(h, WithHeader(login, verb, path, rest), now) == SecurityConfig.FilterRejected
  {
    var login := AuthApi.Login(h, findByEmail, matches, body, clock).response;
    var token := IssuedToken(h, findByEmail, matches, body, clock);
    var req := WithHeader(login, verb, path, rest);
    AuthFilter.BearerHeaderRoundTrip(req, token);
    Jwt.FreshTokenValidity(h, login.userId, clock, now);
    assert !Jwt.ValidateJwt(h, token, now);
  }

  /** GET /users/{id} through the security chain and the controller: released only as the
      record of the caller's own token subject; for a repository that finds by id, released
      exactly when that user exists and is the caller. */
  lemma {:induction false} ReadThroughChain(h: Jwt.Handler, req: Http.Request, now: nat, id: Models.Uuid,
                                           includes: Option<string>,
                                           findById: Models.Uuid -> Option<Models.StoredEntity>,
                                           fetch: Users.AlbumsRequest -> Users.FetchResult)
    requires req.verb == Http.GET && req.path == "/users/" + id && id != "stream"
    requires SecurityConfig.Process(h, req, now).Dispatched?
    ensures SecurityConfig.Process(h, req, now).authentication.Some? && req.authorization != []
    ensures var a := SecurityConfig.Process(h, req, now).authentication.value;
            var (outcome, _) := UserApi.GetUserById(id, includes, Http.JoinedValues(req.authorization), a.principal, findById, fetch);
            && a.principal == Jwt.ExtractTokenSubject(h, AuthFilter.ExtractToken(req).value)
            && (outcome.Released? ==> outcome.response.body.value.id == a.principal)
            && (UserApi.FindsById(findById) ==> (outcome.Released? <==> findById(id).Some? && id == a.principal))
  {
    SecurityConfig.MethodMatters(h, id, now);
    SecurityConfig.FirstMatchByRoute(SecurityConfig.Rules, req, Http.Request(Http.GET, "/users/" + id, []));
    SecurityConfig.OthersNeedIdentity(h, req, now);
    SecurityConfig.IdentityFromOwnHeader(h, req, now);
    AuthFilter.ExtractTokenSpec(req);
    var a := SecurityConfig.Process(h, req, now).authentication.value;
    UserApi.OwnerOnly(id, includes, Http.JoinedValues(req.authorization), a.principal, findById, fetch);
  }
}
