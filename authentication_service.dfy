/**
 * AuthenticationServiceImpl.authentication: the credential check, then the lookup of the user
 * by email, then the answer map with the user id and a token for it.
 */
module Authentication {
  import opened Wrappers
  import Models
  import Jwt
  import AuthUsers

  const UserIdKey: string := "userId"
  const TokenKey: string := "token"

  /** How the login ends: the answer map, an authentication error from the manager, an empty
      answer when no row has the email, or the exception generateJwtToken throws. */
  datatype AuthOutcome = Issued(result: map<string, string>) | CredentialsRejected | NoUser
                       | TokenFailure(error: Jwt.KeyError)

  /** createAuthResponse; fails where generateJwtToken throws. */
  function CreateAuthResponse(h: Jwt.Handler, user: Models.StoredEntity, clock: Jwt.IssueClock): Result<map<string, string>, Jwt.KeyError> {
    match Jwt.GenerateJwtToken(h, user.id.value, clock)
    case Err(e) => Err(e)
    case Ok(token) => Ok(map[UserIdKey := user.id.value, TokenKey := token])
  }

  /** getUserDetails. */
  function GetUserDetails(findByEmail: string -> Option<Models.StoredEntity>, username: string): Option<Models.StoredEntity> {
    findByEmail(username)
  }

  /** authentication(username, password), with `accepted` the outcome of the manager's check
      of those credentials: the lookup is only subscribed to after it passed. */
  function Authenticate(h: Jwt.Handler, accepted: bool, findByEmail: string -> Option<Models.StoredEntity>,
                        username: string, clock: Jwt.IssueClock): AuthOutcome
  {
    if !accepted then CredentialsRejected
    else match GetUserDetails(findByEmail, username)
      case None => NoUser
      case Some(user) =>
        match CreateAuthResponse(h, user, clock)
        case Err(e) => TokenFailure(e)
        case Ok(m) => Issued(m)
  }

  /** authentication under the configured manager, which checks the password against the row of
      that email. */
  function Login(h: Jwt.Handler, findByEmail: string -> Option<Models.StoredEntity>, matches: (string, string) -> bool,
                 username: string, password: string, clock: Jwt.IssueClock): AuthOutcome
  {
    Authenticate(h, AuthUsers.PasswordCheck(findByEmail, matches, username, password), findByEmail, username, clock)
  }

  /** A refused check issues nothing, whatever the repository holds; a passed one with no row
      gives the empty answer; with a row, the answer is the map for that row's id, or the key
      failure. */
  lemma AuthenticateMeans(h: Jwt.Handler, accepted: bool, findByEmail: string -> Option<Models.StoredEntity>,
                          username: string, clock: Jwt.IssueClock)
    ensures !accepted ==> Authenticate(h, accepted, findByEmail, username, clock) == CredentialsRejected
    ensures accepted && findByEmail(username).None? ==> Authenticate(h, accepted, findByEmail, username, clock) == NoUser
    ensures (Authenticate(h, accepted, findByEmail, username, clock).Issued? <==>
             accepted && findByEmail(username).Some? && Jwt.GetKey(h.jwtSecret).Ok?)
    ensures accepted && findByEmail(username).Some? && Jwt.GetKey(h.jwtSecret).Err? ==>
              Authenticate(h, accepted, findByEmail, username, clock) == TokenFailure(Jwt.GetKey(h.jwtSecret).error)
  {
  }

  /** The answer has exactly the keys "userId" and "token"; the id is the row's, and the token is
      the one generateJwtToken makes for that id, so its subject is the id and not the email. */
  lemma IssuedMap(h: Jwt.Handler, accepted: bool, findByEmail: string -> Option<Models.StoredEntity>,
                  username: string, clock: Jwt.IssueClock)
    requires Authenticate(h, accepted, findByEmail, username, clock).Issued?
    ensures var m := Authenticate(h, accepted, findByEmail, username, clock).result;
            var id := findByEmail(username).value.id.value;
            && m.Keys == {UserIdKey, TokenKey}
            && m[UserIdKey] == id
            && Jwt.GenerateJwtToken(h, id, clock) == Ok(m[TokenKey])
  {
  }

  /** With a sound signer, the issued token parses back to claims whose subject is the user id,
      and it is valid when issued. */
  lemma IssuedTokenSubject(h: Jwt.Handler, accepted: bool, findByEmail: string -> Option<Models.StoredEntity>,
                           username: string, clock: Jwt.IssueClock)
    requires Jwt.Sound(h.jws) && Authenticate(h, accepted, findByEmail, username, clock).Issued?
    ensures var m := Authenticate(h, accepted, findByEmail, username, clock).result;
            && UserIdKey in m && TokenKey in m
            && Jwt.ParseToken(h, m[TokenKey]).Ok?
            && Jwt.ExtractTokenSubject(h, m[TokenKey]) == m[UserIdKey]
            && Jwt.ValidateJwt(h, m[TokenKey], clock.atExpiry)
  {
    IssuedMap(h, accepted, findByEmail, username, clock);
    var id := findByEmail(username).value.id.value;
    Jwt.RoundTrip(h, id, clock);
    Jwt.FreshTokenValidity(h, id, clock, clock.atExpiry);
  }

  /** Under the configured manager, a token is issued only to a stored user whose hash matches
      the presented password; for a repository that finds by email, that user has the
      presented email. */
  lemma LoginNeedsMatchingPassword(h: Jwt.Handler, findByEmail: string -> Option<Models.StoredEntity>,
                                   matches: (string, string) -> bool, username: string, password: string, clock: Jwt.IssueClock)
    ensures (Login(h, findByEmail, matches, username, password, clock).Issued? <==>
             && findByEmail(username).Some?
             && matches(password, findByEmail(username).value.password)
             && Jwt.GetKey(h.jwtSecret).Ok?)
    ensures AuthUsers.FindsByEmail(findByEmail) && Login(h, findByEmail, matches, username, password, clock).Issued? ==>
              findByEmail(username).value.email == username
    ensures Login(h, findByEmail, matches, username, password, clock) != NoUser
  {
    AuthUsers.PasswordCheckMeans(findByEmail, matches, username, password);
    AuthenticateMeans(h, AuthUsers.PasswordCheck(findByEmail, matches, username, password), findByEmail, username, clock);
  }
}
