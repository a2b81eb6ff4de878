/**
 * AuthController's POST /login: the authentication answer as response headers.
 */
module AuthApi {
  import opened Wrappers
  import Http
  import Jwt
  import Models
  import AuthFilter
  import JavaStrings
  import Authentication
  import AuthUsers

  /** The JSON body of POST /login. */
  datatype AuthRequest = AuthRequest(email: string, password: string)

  /** A bodiless ResponseEntity with its two headers. */
  datatype LoginResponse = LoginResponse(status: int, authorization: string, userId: string)

  /** How /login ends: a response, the service's error passed on, or an empty result. */
  datatype LoginOutcome = LoggedIn(response: LoginResponse) | LoginFailed(outcome: Authentication.AuthOutcome) | NoResponse

  /** `ResponseEntity.ok().header(AUTHORIZATION, "Bearer " + token).header("UserId", userId).build()`. */
  function LoginAnswer(outcome: Authentication.AuthOutcome): (r: LoginOutcome)
    ensures r.LoggedIn? <==> outcome.Issued?
    ensures outcome.NoUser? ==> r == NoResponse
    ensures outcome.CredentialsRejected? || outcome.TokenFailure? ==> r == LoginFailed(outcome)
  {
    match outcome
    case Issued(m) =>
      var token := if Authentication.TokenKey in m then m[Authentication.TokenKey] else "null";
      var userId := if Authentication.UserIdKey in m then m[Authentication.UserIdKey] else "null";
      LoggedIn(LoginResponse(Http.Ok, AuthFilter.BearerPrefix + token, userId))
    case NoUser => NoResponse
    case _ => LoginFailed(outcome)
  }

  /** login: the body's email and password go unchanged to authentication. */
  function Login(h: Jwt.Handler, findByEmail: string -> Option<Models.StoredEntity>, matches: (string, string) -> bool,
                 body: AuthRequest, clock: Jwt.IssueClock): LoginOutcome
  {
    LoginAnswer(Authentication.Login(h, findByEmail, matches, body.email, body.password, clock))
  }

  /** A login answer is 200 with `Authorization: Bearer <token>` and `UserId: <id>` for the map's
      token and id. */
  lemma LoginHeaders(outcome: Authentication.AuthOutcome)
    requires outcome.Issued? && Authentication.TokenKey in outcome.result && Authentication.UserIdKey in outcome.result
    ensures LoginAnswer(outcome) == LoggedIn(LoginResponse(Http.Ok,
              "Bearer " + outcome.result[Authentication.TokenKey], outcome.result[Authentication.UserIdKey]))
  {
  }

  /** The issued header comes back through the bearer filter's extraction as the token itself,
      for any token with nothing String.trim would remove at its ends. */
  lemma {:induction false} IssuedHeaderExtracts(token: string, userId: string, m: Http.HttpMethod, path: string, rest: seq<string>)
    requires JavaStrings.IsTrimmed(token)
    ensures var resp := LoginAnswer(Authentication.Issued(map[Authentication.UserIdKey := userId, Authentication.TokenKey := token]));
            && resp.LoggedIn?
            && AuthFilter.ExtractToken(Http.Request(m, path, [resp.response.authorization] + rest)) == Some(token)
  {
    var resp := LoginAnswer(Authentication.Issued(map[Authentication.UserIdKey := userId, Authentication.TokenKey := token]));
    assert resp.response.authorization == AuthFilter.BearerPrefix + token;
    AuthFilter.BearerHeaderRoundTrip(Http.Request(m, path, [resp.response.authorization] + rest), token);
  }

  /** POST /login under the configured manager answers 200 exactly for the body's email when a
      row has it, the password matches that row's hash and the key is usable; it then names that
      row's id in `UserId` and carries, after `Bearer `, a token whose subject is that id and which
      is valid when issued. It never completes empty: every other login is a failure. */
  lemma LoginMeans(h: Jwt.Handler, findByEmail: string -> Option<Models.StoredEntity>,
                   matches: (string, string) -> bool, body: AuthRequest, clock: Jwt.IssueClock)
    requires Jwt.Sound(h.jws)
    ensures (Login(h, findByEmail, matches, body, clock).LoggedIn? <==>
             && findByEmail(body.email).Some?
             && matches(body.password, findByEmail(body.email).value.password)
             && Jwt.GetKey(h.jwtSecret).Ok?)
    ensures Login(h, findByEmail, matches, body, clock) != NoResponse
    ensures Login(h, findByEmail, matches, body, clock).LoggedIn? ==>
              var resp := Login(h, findByEmail, matches, body, clock).response;
              var token := resp.authorization[|AuthFilter.BearerPrefix|..];
              && resp.status == Http.Ok
              && resp.userId == findByEmail(body.email).value.id.value
              && JavaStrings.StartsWith(resp.authorization, AuthFilter.BearerPrefix)
              && Jwt.ParseToken(h, token).Ok?
              && Jwt.ExtractTokenSubject(h, token) == resp.userId
              && Jwt.ValidateJwt(h, token, clock.atExpiry)
  {
    var outcome := Authentication.Login(h, findByEmail, matches, body.email, body.password, clock);
    Authentication.LoginNeedsMatchingPassword(h, findByEmail, matches, body.email, body.password, clock);
    if outcome.Issued? {
      var accepted := AuthUsers.PasswordCheck(findByEmail, matches, body.email, body.password);
      Authentication.IssuedMap(h, accepted, findByEmail, body.email, clock);
      Authentication.IssuedTokenSubject(h, accepted, findByEmail, body.email, clock);
      var token := outcome.result[Authentication.TokenKey];
      LoginHeaders(outcome);
      assert (AuthFilter.BearerPrefix + token)[|AuthFilter.BearerPrefix|..] == token;
    }
  }
}
