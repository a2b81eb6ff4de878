# secure-reactive users service, modelled in Dafny

A model of the request path of a Spring WebFlux user service secured by bearer tokens:

- **Token handling** (`JwtHandler`): HS-signed JWTs with subject, issue time and a one-hour
  expiration; the key comes from the `jwt.client-secret` property.
- **Bearer gate** (`JwtAuthenticationFilter`): reads the first `Authorization` value. It lets the
  request through anonymously, refuses it with 401, or attaches the token's subject as the
  authenticated principal.
- **Route policy** (`WebSecurityConfig`): POST /users, POST /login and GET /users/stream are
  open. POST /logout is answered by the default logout filter with a redirect before any
  authorization. Every other exchange needs an authenticated identity. No security context is
  stored between requests.
- **Users API** (`UserController`, `UserService`, `CreateUserRequest`): validated creation
  (encoded password, save, publish to a shared sink). Read by id behind `@PostAuthorize`, with
  optional best-effort album enrichment from a downstream service that forwards the caller's
  header. Paged listing, and a server-sent event stream of new users.
- **Login** (`AuthService`, `AuthenticationServiceImpl`, `AuthController`): credential check,
  lookup by email, then a token for the user id, sent back in `Authorization: Bearer <token>`
  and `UserId` headers.

Foreign code is given as parameters:
- the JJWT builder/parser is the pair of functions in `Jwt.JwsScheme`; what the handler depends
  on is the ghost predicate `Jwt.Sound`
- BCrypt is `encode`/`matches`
- the email syntax check is `isEmail`
- the repository is `save`/`findById`/`findByEmail`/`findAllBy`
- the albums request's result is `fetch`
- the clock is given as values in epoch milliseconds: `now` when a token is validated, and
  `Jwt.IssueClock` for the two readings `generateJwtToken` takes

The shared `Sinks.Many<User>` and the response the filter writes are classes whose methods
change their fields. Everything else is values and functions.

Modules follow the source files:
- `java_strings.dfy` — `JavaStrings`: `trim`, `hasText`, `startsWith`, `contains`, lengths
- `jwt_handler.dfy` — `Jwt`
- `http.dfy` — `Http`
- `jwt_authentication_filter.dfy` — `AuthFilter`
- `web_security_config.dfy` — `SecurityConfig`
- `models.dfy` — `Models`
- `create_user_request.dfy` — `Validation`
- `user_sink.dfy` — `UserSinks`
- `user_service.dfy` — `Users`
- `user_controller.dfy` — `UserApi`
- `auth_service.dfy` — `AuthUsers`
- `authentication_service.dfy` — `Authentication`
- `auth_controller.dfy` — `AuthApi`
- `end_to_end.dfy` — `Flows`: properties that connect the pieces
- `wrappers.dfy` — `Wrappers`: Option and Result

Behaviours of the code that the model keeps as written:
- A token is still accepted at the exact millisecond of its expiration, because `validateJwt`
  tests `!expiration.before(now)`.
- `generateJwtToken` reads the clock twice, once for `iat` and once for `exp`, so `exp - iat`
  is 3601 seconds when the readings straddle a second boundary.
- Users created while nobody is subscribed are kept by the multicast sink and handed to its
  first subscriber (UserServiceTest relies on this). Once someone is subscribed, a new
  subscriber starts empty.
- A read of a missing user never reaches the caller as 404: the empty body fails
  `@PostAuthorize`.
- Without the property, the secret falls back to `"defaultKey"`. That is 10 bytes, below the 256
  bits `Keys.hmacShaKeyFor` requires, so no token can be issued or validated.
- A missing token on a protected route is not refused by the filter. It passes through
  anonymously and the route policy denies it.
- Three routes are open: POST /users, POST /login and GET /users/stream.

`UserEntity` and `AuthRequest` are not modelled from their own files; their fields are taken
from their uses in `UserService`, `AuthenticationServiceImpl` and the tests.

## Model

| member | source | states |
|---|---|---|
| JavaStrings.TrimLeadingSpec | src/main/java/com/learning/spring/secure_reactive/middlewares/JwtAuthenticationFilter.java:55 | the first loop of `trim` removes exactly a prefix of characters at or below U+0020 and stops at a kept character |
| JavaStrings.TrimTrailingSpec | src/main/java/com/learning/spring/secure_reactive/middlewares/JwtAuthenticationFilter.java:55 | the second loop of `trim` removes exactly such a suffix and stops at a kept character |
| JavaStrings.TrimSpec | src/main/java/com/learning/spring/secure_reactive/middlewares/JwtAuthenticationFilter.java:55 | the trimmed string has no trimmable end, and is empty exactly when every character was trimmable |
| JavaStrings.TrimOfTrimmed | src/main/java/com/learning/spring/secure_reactive/middlewares/JwtAuthenticationFilter.java:55 | `trim` is the identity on a string with no trimmable end |
| JavaStrings.TrimPadded | src/main/java/com/learning/spring/secure_reactive/middlewares/JwtAuthenticationFilter.java:55 | `trim` of a trimmed string padded with trimmable characters on both sides gives that string back |
| JavaStrings.ContainsMeans | src/main/java/com/learning/spring/secure_reactive/services/UserService.java:55 | `contains` holds exactly when the part occurs at some offset |
| JavaStrings.ContainsAt | src/main/java/com/learning/spring/secure_reactive/services/UserService.java:55 | `contains` finds an occurrence at any offset |
| JavaStrings.ShorterNotContains | src/main/java/com/learning/spring/secure_reactive/services/UserService.java:55 | a string shorter than the part never contains it |
| JavaStrings.Utf16Length | src/main/java/com/learning/spring/secure_reactive/models/request/CreateUserRequest.java:18 | `String.length()` lies between the number of code points and twice that |
| JavaStrings.Utf16LengthOfBmp | src/main/java/com/learning/spring/secure_reactive/models/request/CreateUserRequest.java:30 | for code points of the Basic Multilingual Plane, `length()` is the number of characters |
| JavaStrings.Utf8Length | src/main/java/com/learning/spring/secure_reactive/components/JwtHandler.java:52 | the UTF-8 byte count lies between the number of code points and four times that |
| JavaStrings.Utf8LengthOfAscii | src/main/java/com/learning/spring/secure_reactive/components/JwtHandler.java:52 | an ASCII secret has one byte per character |
| Jwt.IssuedLifetime | src/main/java/com/learning/spring/secure_reactive/components/JwtHandler.java:22-29 | for a clock that does not go back, a generated token carries the subject and `exp` is at least 3600 seconds after `iat`: exactly 3600 for one reading, at most 3601 for readings less than a second apart; its expiration instant lies within the last second of the hour after the second reading |
| Jwt.StraddlingReadings | src/main/java/com/learning/spring/secure_reactive/components/JwtHandler.java:25-26 | readings at 999 ms and 1000 ms give a token whose `exp` is 3601 seconds after its `iat` |
| Jwt.RoundTrip | src/main/java/com/learning/spring/secure_reactive/components/JwtHandler.java:22-48 | with a usable key, parsing a generated token gives back its claims, and `extractTokenSubject` gives back the subject |
| Jwt.FreshTokenValidity | src/main/java/com/learning/spring/secure_reactive/components/JwtHandler.java:22-36 | a generated token validates exactly up to and including its expiration instant: throughout the hour after the second reading less its last second (after the first, for a clock that does not go back), and never after that hour |
| Jwt.WrongSecretRejected | src/main/java/com/learning/spring/secure_reactive/components/JwtHandler.java:42-48 | a token signed under one secret never validates under another, for secrets whose HMAC keys differ |
| Jwt.NullSecret | src/main/java/com/learning/spring/secure_reactive/components/JwtHandler.java:50-55 | with no secret, generation fails and validation answers `false` |
| Jwt.DefaultSecretIsWeak | src/main/java/com/learning/spring/secure_reactive/components/JwtHandler.java:19-20 | with the property unset, the fallback `defaultKey` is too short for a key: no token is issued and none validates |
| Jwt.EmptyTokenRejected | src/main/java/com/learning/spring/secure_reactive/components/JwtHandler.java:31-35 | the empty token never validates |
| Jwt.GeneratedIsCompact | src/main/java/com/learning/spring/secure_reactive/components/JwtHandler.java:22-28 | a generated token is compact JWS text, so `trim` leaves it intact |
| AuthFilter.HandleInvalidToken | src/main/java/com/learning/spring/secure_reactive/middlewares/JwtAuthenticationFilter.java:47-50 | the response gets status 401 and is completed |
| AuthFilter.Filter | src/main/java/com/learning/spring/secure_reactive/middlewares/JwtAuthenticationFilter.java:26-33 | the downstream calls are those of the gate decision; the response becomes 401 and complete only on rejection, and is untouched otherwise |
| AuthFilter.ExtractTokenSpec | src/main/java/com/learning/spring/secure_reactive/middlewares/JwtAuthenticationFilter.java:52-59 | a token is extracted exactly when the first header value starts with the case-sensitive `Bearer `, and it is the trimmed rest |
| AuthFilter.AtMostOneChainCall | src/main/java/com/learning/spring/secure_reactive/middlewares/JwtAuthenticationFilter.java:26-45 | every decision calls the chain at most once, always on the exchange it was given |
| AuthFilter.BlankBearerRejected | src/main/java/com/learning/spring/secure_reactive/middlewares/JwtAuthenticationFilter.java:54-55 | `Bearer ` followed only by blanks extracts the empty token, which is rejected rather than treated as anonymous |
| AuthFilter.LowerCaseSchemeIsAnonymous | src/main/java/com/learning/spring/secure_reactive/middlewares/JwtAuthenticationFilter.java:54 | a `bearer ` header extracts nothing, so the request is anonymous |
| AuthFilter.BearerHeaderRoundTrip | src/main/java/com/learning/spring/secure_reactive/middlewares/JwtAuthenticationFilter.java:54-55 | `Bearer ` plus a token with no trimmable end extracts that token |
| SecurityConfig.RouteTable | src/main/java/com/learning/spring/secure_reactive/middlewares/configs/WebSecurityConfig.java:34-39 | some rule always matches; exactly POST /users, POST /login and GET /users/stream are permitted, and everything else requires authentication |
| SecurityConfig.FirstMatchByRoute | src/main/java/com/learning/spring/secure_reactive/middlewares/configs/WebSecurityConfig.java:34-39 | matching depends on the method and the path only |
| SecurityConfig.WhitelistWithoutHeader | src/main/java/com/learning/spring/secure_reactive/middlewares/configs/WebSecurityConfig.java:35-37 | the three open routes reach their handler with no `Authorization` header |
| SecurityConfig.OthersNeedIdentity | src/main/java/com/learning/spring/secure_reactive/middlewares/configs/WebSecurityConfig.java:38-39 | any other route is dispatched only with an authenticated identity; without a token it is denied, except POST /logout, which is redirected |
| SecurityConfig.LogoutBeforeAuthorization | src/main/java/com/learning/spring/secure_reactive/middlewares/configs/WebSecurityConfig.java:34-46 | POST /logout never reaches a controller or the route policy: it gets 401 exactly when the bearer filter rejects it, and otherwise the redirect to `/login?logout` |
| SecurityConfig.MethodMatters | src/main/java/com/learning/spring/secure_reactive/middlewares/configs/WebSecurityConfig.java:35-39 | GET /users, GET /login, GET /users/{id}, POST /users/stream and DELETE /users are not open |
| SecurityConfig.InvalidTokenBeatsPermitAll | src/main/java/com/learning/spring/secure_reactive/middlewares/configs/WebSecurityConfig.java:44 | the filter runs on every route, so an invalid token gets the filter's 401 even on an open route |
| SecurityConfig.IdentityFromOwnHeader | src/main/java/com/learning/spring/secure_reactive/middlewares/configs/WebSecurityConfig.java:44-45 | a dispatched identity is that of the request's own header: a token valid now, and its subject as principal |
| SecurityConfig.Stateless | src/main/java/com/learning/spring/secure_reactive/middlewares/configs/WebSecurityConfig.java:45 | two requests with the same method, path and first `Authorization` value end the same way |
| Validation.NotBlankMeans | src/main/java/com/learning/spring/secure_reactive/models/request/CreateUserRequest.java:17 | `@NotBlank` holds exactly for a non-null value with a character above U+0020 |
| Validation.BlankRejected | src/main/java/com/learning/spring/secure_reactive/models/request/CreateUserRequest.java:17-31 | a value of blanks only fails every field's constraint, whatever its length |
| Validation.PasswordExamples | src/main/java/com/learning/spring/secure_reactive/models/request/CreateUserRequest.java:29-30 | `123` is refused as a password and `1234567890` is accepted |
| Validation.TestPasswords | src/test/java/com/learning/spring/secure_reactive/controllers/UserControllerTest.java:68-84 | a request with password `123` is invalid; one with `1234567890` is valid exactly when its other three fields are |
| UserSinks.Deliver | src/main/java/com/learning/spring/secure_reactive/configs/SinksConfig.java:13 | an event is appended to every subscriber's queue and to nothing else |
| UserSinks.EmitPreservesValid | src/main/java/com/learning/spring/secure_reactive/configs/SinksConfig.java:13 | emitting and subscribing keep the sink's invariant (nothing is held back once someone subscribed), and emitting adds no subscriber |
| UserSinks.SameOrderForAll | src/main/java/com/learning/spring/secure_reactive/configs/SinksConfig.java:13 | with subscribers attached, every one of them receives all the emitted events in emission order |
| UserSinks.KeptForFirstSubscriber | src/test/java/com/learning/spring/secure_reactive/services/UserServiceTest.java:99-106 | events emitted before anyone subscribes are kept in order and all go to the first subscriber |
| UserSinks.LateSubscriberSeesNoHistory | src/main/java/com/learning/spring/secure_reactive/configs/SinksConfig.java:13 | a subscriber joining others starts with an empty queue, and the other queues are left alone |
| UserSinks.UserSink.TryEmitNext | src/main/java/com/learning/spring/secure_reactive/services/UserService.java:47 | the sink's new state is the emission of the user, and the invariant holds |
| UserSinks.UserSink.Subscribe | src/main/java/com/learning/spring/secure_reactive/services/UserService.java:68-72 | a new subscriber is attached with the numbered queue, starting with whatever was kept |
| UserSinks.UserSink.Poll | src/test/java/com/learning/spring/secure_reactive/services/UserServiceTest.java:101 | the subscriber takes the head of its queue |
| Users.CreateStoresEncoded | src/main/java/com/learning/spring/secure_reactive/services/UserService.java:42-87 | `save` is called exactly once, whatever it answers; the saved row has no id, the encoded password and the request's names and email; create succeeds exactly when the save does, and answers the saved id, names and email with no password |
| Users.ModelDropsPassword | src/main/java/com/learning/spring/secure_reactive/services/UserService.java:83-87 | the API user never depends on the stored password, has no albums, and keeps the row's id |
| Users.IncludeExamples | src/main/java/com/learning/spring/secure_reactive/services/UserService.java:55 | `albums` and `photos,albums` ask for albums; null, `Albums` and the empty string do not |
| Users.EnrichOnlyWhenAsked | src/main/java/com/learning/spring/secure_reactive/services/UserService.java:50-60 | the result is empty exactly when the user is absent; one albums request goes out exactly when the user exists and `include` contains `albums`, for that user's id with the caller's header unchanged; otherwise albums stays null |
| Users.EnrichmentOutcome | src/main/java/com/learning/spring/secure_reactive/services/UserService.java:89-114 | after a fetched body, the user is the same with albums set to that list; after a 4xx, a 5xx or a transport failure it is the user as read |
| Users.GetAllUser | src/main/java/com/learning/spring/secure_reactive/services/UserService.java:62-66 | one API user per row of the page, in the repository's order |
| Users.UserService.CreateUser | src/main/java/com/learning/spring/secure_reactive/services/UserService.java:42-48 | the answer and the entities handed to `save` are those of the create specification (one save); only a success is emitted to the sink |
| Users.UserService.StreamUser | src/main/java/com/learning/spring/secure_reactive/services/UserService.java:68-72 | each stream is one more subscriber of the shared sink |
| Users.CreateThenSubscribe | src/test/java/com/learning/spring/secure_reactive/services/UserServiceTest.java:83-108 | a user created before anyone subscribed is what the first subscriber receives, and `save` was called once with the encoded entity |
| Users.SubscribeThenCreate | src/main/java/com/learning/spring/secure_reactive/services/UserService.java:42-48 | a stream opened before a create receives exactly that one user |
| UserApi.OwnerOnly | src/main/java/com/learning/spring/secure_reactive/controllers/UserController.java:43-49 | a released read is a 200 whose body's id is the principal; if the repository finds by id, a read is released exactly when the user exists and is the caller |
| UserApi.MissingUserDenied | src/main/java/com/learning/spring/secure_reactive/controllers/UserController.java:43-49 | a missing user is denied by the post-check instead of answered 404, and sends no albums request |
| UserApi.AlbumsFetchedBeforeCheck | src/main/java/com/learning/spring/secure_reactive/controllers/UserController.java:43-47 | reading another user's record with albums asked still sends the albums request with the caller's header, and is then denied |
| UserApi.PagingMeans | src/main/java/com/learning/spring/secure_reactive/controllers/UserController.java:54-59 | pages 0 and 1 are both index 0, and page n of at least 1 is index n - 1; a negative page or a size below one is an error; without parameters, page 0 with 50 rows is read |
| UserApi.UserController.CreateUser | src/main/java/com/learning/spring/secure_reactive/controllers/UserController.java:30-38 | an invalid body is 400, nothing is saved and the sink is untouched; otherwise `save` is called once with the encoded entity, a created user is the 201 response and is emitted, and a service failure is 500 with nothing emitted |
| UserApi.UserController.StreamUser | src/main/java/com/learning/spring/secure_reactive/controllers/UserController.java:63-66 | the stream endpoint attaches one subscriber to the shared sink |
| AuthUsers.DetailsMeans | src/main/java/com/learning/spring/secure_reactive/middlewares/services/AuthService.java:20-28 | empty exactly when no row has that email; otherwise the row's email as username, its stored password unchanged, and no authorities (for a repository that finds by email, the username is the one asked) |
| Authentication.AuthenticateMeans | src/main/java/com/learning/spring/secure_reactive/middlewares/services/AuthenticationServiceImpl.java:31-40 | a refused check issues nothing, whatever the repository holds; a passed check with no row gives the empty answer; a map is answered exactly for a passed check, an existing row and a usable key |
| Authentication.IssuedMap | src/main/java/com/learning/spring/secure_reactive/middlewares/services/AuthenticationServiceImpl.java:42-47 | the answer has exactly the keys `userId` and `token`, the row's id, and the token generated for that id |
| Authentication.IssuedTokenSubject | src/main/java/com/learning/spring/secure_reactive/middlewares/services/AuthenticationServiceImpl.java:44-45 | the issued token's subject is the user id, not the email, and the token validates when issued |
| Authentication.LoginNeedsMatchingPassword | src/main/java/com/learning/spring/secure_reactive/middlewares/services/AuthenticationServiceImpl.java:31-35 | under the configured manager, a token is issued exactly for a stored user whose hash matches, with a usable key; for a repository that finds by email, that user has the presented email |
| AuthApi.LoginMeans | src/main/java/com/learning/spring/secure_reactive/controllers/AuthController.java:21-28 | under the configured manager, /login answers 200 exactly when a row has the body's email, the password matches its hash and the key is usable; `UserId` is that row's id and `Authorization` is `Bearer ` plus a token whose subject is that id and which is valid when issued; no login completes empty |
| AuthApi.IssuedHeaderExtracts | src/main/java/com/learning/spring/secure_reactive/controllers/AuthController.java:26 | the bearer filter extracts the issued header back to the token, for a token with no trimmable end |
| Flows.IssuedToken | src/main/java/com/learning/spring/secure_reactive/middlewares/services/AuthenticationServiceImpl.java:42-47 | the header a login issues carries a compact token that parses to the claims issued for the answered user id |
| Flows.LoginThenAccess | src/main/java/com/learning/spring/secure_reactive/middlewares/JwtAuthenticationFilter.java:26-45 | within the hour after login (less its last second), the issued header reaches any route as the logged-in user id, with no credentials and no authorities; POST /logout is redirected instead |
| Flows.ExpiredLoginRejected | src/main/java/com/learning/spring/secure_reactive/components/JwtHandler.java:34 | once the hour after the second clock reading is over, the same header gets 401 on every route |
| Flows.ReadThroughChain | src/main/java/com/learning/spring/secure_reactive/controllers/UserController.java:41-47 | GET /users/{id} through the security chain releases only the record of the caller's token subject, and (for a repository that finds by id) exactly when that user exists and is the caller |

## Left out

- Reactor: laziness, `Schedulers.boundedElastic`, `publish().autoConnect(1)`, cancellation and
  concurrent delivery. The sink is a sequential queue model of the behaviour the tests rely on.
  Every subscriber is assumed to keep requesting (no backpressure). The multicast sink really has
  one shared buffer that drains only when all subscribers have demand, so a subscriber joining
  while a slow one still holds undelivered events would also receive them.
- UserSinks.UserSink: unbounded. The default 256-element buffer of `onBackpressureBuffer`, and
  what happens when it fills, are not modelled.
- Cryptography: HMAC signing, JJWT parsing and BCrypt are function parameters. The library is
  assumed to have the properties in `Jwt.Sound`, two of which are idealised (next two lines).
- Jwt.Sound: the key-length rule is JJWT's 256-bit minimum for HMAC keys. No signature
  algorithm is chosen from the key length. Two gaps follow:
  - Parsing takes no clock. JJWT's `parseSignedClaims` checks expiry against its own clock and
    throws once it has passed, so `extractTokenSubject`, which parses a second time, fails for a
    token that expires between the filter's two calls. `AuthFilter.Decide` has no such case.
  - Distinct secrets are assumed to give distinct signatures. HMAC zero-pads a key shorter than
    its block, so secrets `s` and `s` followed by NUL characters, in the same key-length band,
    sign alike.
- Jwt.WrongSecretRejected: holds only for secrets that differ after HMAC's zero padding, as the
  `Jwt.Sound` line above says.
- Jwt.RoundTrip: `extractTokenSubject` gives back the subject only while the token has not
  expired by JJWT's own clock; the model's parse takes no time.
- The wall clock is given as readings (`now`, `Jwt.IssueClock`). Their millisecond-to-second
  truncation is written out; clock skew settings are not.
- Jwt.IssuedLifetime: the 3601-second upper bound on `exp - iat` is stated only for readings
  less than a second apart; nothing bounds the time between the two readings.
- JavaStrings.Utf8Length: `getBytes()` without a charset uses the platform default charset; the
  model assumes it is UTF-8, which Java guarantees only from Java 18.
- SecurityConfig.LogoutBeforeAuthorization: the logout filter's handlers (clearing the
  no-op security context repository) have no effect here; the 302 response is the
  `LoggedOut` outcome with the redirect location.
- HTTP I/O: the WebClient call, URI building and port 8084, and the decoding of request and
  response bodies. The albums request is an `AlbumsRequest` value and its outcome a `FetchResult`.
  `Http.Request.authorization` holds the header values as the filter receives them. A server
  reading a real connection strips trailing spaces from a field value, so `Bearer   ` then
  arrives as `Bearer` and passes through anonymously. `AuthFilter.BlankBearerRejected` is about
  a value handed to the filter as it is, as a mock exchange does.
- Persistence: the repository, the unique email constraint and paging in the database are
  parameters. `UserRepository.java` declares only `findAllBy`; `findByEmail` and `findById`
  are given as lookup functions.
- In `UserApi.GetUserById`, a path id that is not a UUID (a 400 before the handler) is not
  modelled; ids are their canonical text. Query values that are not integers are not modelled
  either.
- Framework rendering: the statuses of a route-policy denial, a `@PostAuthorize` denial and a
  failed login are outcome constructors (`AccessDenied`, `Denied`, `LoginFailed`). The framework
  handlers that pick them are not part of this model. The body of the 500 error response is not
  modelled.
- UserApi.UserController.CreateUser: states that an invalid body is answered 400 and nothing is
  saved or emitted. It does not state when the service method is entered, because bean
  validation runs while the body is decoded.
- CORS, CSRF and httpBasic settings, the application bootstrap, `WebClientConfig`.
- Validation.EmailSyntax: the `@Email` syntax rules are the parameter `isEmail`.
- The validation message texts.
- `AuthRequest.java` is not part of this model, so any constraints on its fields are left out.
- The commented-out admin `@PreAuthorize` is inactive code.
- Account status flags of Spring Security's `UserDetails` are left out: the builder leaves them
  all in their passing state.
- Logging of enrichment failures.
