/**
 * AuthService, the ReactiveUserDetailsService behind the login: the user with the asked email,
 * as Spring Security UserDetails.
 */
module AuthUsers {
  import opened Wrappers
  import Models

  /** What User.withUsername(..).password(..).authorities(..).build() carries. */
  datatype UserDetails = UserDetails(username: string, password: string, authorities: seq<string>)

  /** The repository answers a lookup by email with a row of that email. */
  ghost predicate FindsByEmail(findByEmail: string -> Option<Models.StoredEntity>) {
    forall email: string :: findByEmail(email).Some? ==> findByEmail(email).value.email == email
  }

  /** findByUsername: the username is looked up as an email. */
  function FindByUsername(findByEmail: string -> Option<Models.StoredEntity>, username: string): Option<UserDetails> {
    match findByEmail(username)
    case None => None
    case Some(e) => Some(UserDetails(e.email, e.password, []))
  }

  /** Empty exactly when no row has that email; otherwise the row's email as username, its
      stored (encoded) password unchanged, and no authorities. For a repository that finds by
      email, the username is the one asked for. */
  lemma DetailsMeans(findByEmail: string -> Option<Models.StoredEntity>, username: string)
    ensures FindByUsername(findByEmail, username).None? <==> findByEmail(username).None?
    ensures FindByUsername(findByEmail, username).Some? ==>
              var d := FindByUsername(findByEmail, username).value;
              && d.username == findByEmail(username).value.email
              && d.password == findByEmail(username).value.password
              && d.authorities == []
    ensures FindsByEmail(findByEmail) && FindByUsername(findByEmail, username).Some? ==>
              FindByUsername(findByEmail, username).value.username == username
  {
  }

  /** The credential check of the configured UserDetailsRepositoryReactiveAuthenticationManager:
      the details exist and the encoder matches the presented password with the stored one. The
      account-status checks always pass, since the builder leaves every flag at its default. */
  predicate PasswordCheck(findByEmail: string -> Option<Models.StoredEntity>, matches: (string, string) -> bool,
                          username: string, password: string) {
    match FindByUsername(findByEmail, username)
    case None => false
    case Some(d) => matches(password, d.password)
  }

  /** The check passes exactly when a row has that email and its stored hash matches. */
  lemma PasswordCheckMeans(findByEmail: string -> Option<Models.StoredEntity>, matches: (string, string) -> bool,
                           username: string, password: string)
    ensures PasswordCheck(findByEmail, matches, username, password) <==>
              findByEmail(username).Some? && matches(password, findByEmail(username).value.password)
  {
  }
}
