/**
 * UserService: create (encode the password, save, publish to the shared sink), read by id with
 * optional album enrichment from the downstream albums service, page listing, and the stream.
 * The repository, the password encoder and the web client are parameters: `save`, `findById`
 * and `findAllBy` give the repository's answers, `encode` is BCrypt, `fetch` is the outcome of
 * the albums request.
 */
module Users {
  import opened Wrappers
  import JavaStrings
  import Models
  import UserSinks

  /** Why userRepository.save failed (a duplicate email under the unique constraint, or otherwise). */
  datatype SaveError = DuplicateKey | StorageFailure

  /** The outbound `GET /albums?userId=<id>` with its `Authorization` header. */
  datatype AlbumsRequest = AlbumsRequest(userId: Models.Uuid, authorization: string)

  /** How that request ended: a body, a 4xx, a 5xx, or no response at all. */
  datatype FetchResult = Fetched(albums: seq<Models.Album>) | ClientError(status: int)
                       | ServerError(status: int) | TransportError

  /** The repository keeps what it is asked to save, and assigns the id. */
  ghost predicate SaveKeepsFields(save: Models.UserEntity -> Result<Models.StoredEntity, SaveError>) {
    forall e: Models.UserEntity :: save(e).Ok? ==>
      var s := save(e).value;
      s.firstName == e.firstName && s.lastName == e.lastName && s.email == e.email && s.password == e.password
  }

  /** convertToEntity: copyProperties, then the encoded password; the id is left null. */
  function ConvertToEntity(r: Models.CreateUserRequest, encode: string -> string): (e: Models.UserEntity)
    requires Models.Complete(r)
  {
    Models.UserEntity(None, r.firstName.value, r.lastName.value, r.email.value, encode(r.password.value))
  }

  /** convertToModel: copyProperties into a fresh User; there is no password to copy into,
      and albums stays null. */
  function ConvertToModel(e: Models.StoredEntity): Models.User {
    Models.User(e.id.value, e.firstName, e.lastName, e.email, None)
  }

  /** `include != null && include.contains("albums")`. */
  predicate WantsAlbums(includes: Option<string>) {
    includes.Some? && JavaStrings.Contains(includes.value, "albums")
  }

  /** The request includeUserAlbums sends: the user's id, and the caller's header as it came. */
  function AlbumsRequestFor(user: Models.User, jwt: string): AlbumsRequest {
    AlbumsRequest(user.id, jwt)
  }

  /** includeUserAlbums: on a body, setAlbums on the user; on any failure, the user as it was. */
  function IncludeUserAlbums(user: Models.User, result: FetchResult): Models.User {
    match result
    case Fetched(albums) => user.(albums := Some(albums))
    case ClientError(_) => user
    case ServerError(_) => user
    case TransportError => user
  }

  /** getUserById: the user (None when absent), and the albums requests it sends. */
  function GetUserById(id: Models.Uuid, includes: Option<string>, jwt: string,
                       findById: Models.Uuid -> Option<Models.StoredEntity>,
                       fetch: AlbumsRequest -> FetchResult): (Option<Models.User>, seq<AlbumsRequest>)
  {
    match findById(id)
    case None => (None, [])
    case Some(e) =>
      var user := ConvertToModel(e);
      if WantsAlbums(includes) then
        var req := AlbumsRequestFor(user, jwt);
        (Some(IncludeUserAlbums(user, fetch(req))), [req])
      else (Some(user), [])
  }

  /** getAllUser: one User per row of the requested page, in the repository's order. */
  function GetAllUser(rows: seq<Models.StoredEntity>): (users: seq<Models.User>)
    ensures |users| == |rows|
    ensures forall i :: 0 <= i < |rows| ==> users[i] == ConvertToModel(rows[i])
  {
    if rows == [] then [] else [ConvertToModel(rows[0])] + GetAllUser(rows[1..])
  }

  /** What createUser answers (the saved row as a User, or the repository's error), and the
      entities it hands to userRepository.save, in order. */
  function CreateResult(r: Models.CreateUserRequest, encode: string -> string,
                        save: Models.UserEntity -> Result<Models.StoredEntity, SaveError>)
    : (Result<Models.User, SaveError>, seq<Models.UserEntity>)
    requires Models.Complete(r)
  {
    var entity := ConvertToEntity(r, encode);
    match save(entity)
    case Ok(e) => (Ok(ConvertToModel(e)), [entity])
    case Err(err) => (Err(err), [entity])
  }

  /** save is called exactly once, whatever it answers, with a row that holds the encoded
      password and the request's other fields and no id yet; the answer carries the saved id,
      names and email, and no password. */
  lemma CreateStoresEncoded(r: Models.CreateUserRequest, encode: string -> string,
                            save: Models.UserEntity -> Result<Models.StoredEntity, SaveError>)
    requires Models.Complete(r) && SaveKeepsFields(save)
    ensures var (answer, saves) := CreateResult(r, encode, save);
            && |saves| == 1
            && saves[0] == Models.UserEntity(None, r.firstName.value, r.lastName.value, r.email.value, encode(r.password.value))
            && (answer.Ok? <==> save(saves[0]).Ok?)
            && (answer.Err? ==> answer == Err(save(saves[0]).error))
            && (answer.Ok? ==>
                  var row := save(saves[0]).value;
                  && row.password == encode(r.password.value)
                  && answer.value == Models.User(row.id.value, r.firstName.value, r.lastName.value, r.email.value, None))
  {
  }

  /** The model never depends on the stored password: rows that differ only there give the same User. */
  lemma ModelDropsPassword(e: Models.StoredEntity, password: string)
    ensures ConvertToModel(e.(password := password)) == ConvertToModel(e)
    ensures ConvertToModel(e).albums.None? && ConvertToModel(e).id == e.id.value
  {
  }

  /** Which `include` values ask for albums: any containing "albums", case-sensitively. */
  lemma IncludeExamples()
    ensures WantsAlbums(Some("albums")) && WantsAlbums(Some("photos,albums"))
    ensures !WantsAlbums(None) && !WantsAlbums(Some("Albums")) && !WantsAlbums(Some(""))
  {
    var both := "photos,albums";
    assert both[7..] == "albums";
    JavaStrings.ContainsAt(both, "albums", 7);
    JavaStrings.ContainsAt("albums", "albums", 0);
    var capital := "Albums";
    assert capital[0] != "albums"[0];
    JavaStrings.ShorterNotContains(capital[1..], "albums");
    JavaStrings.ShorterNotContains("", "albums");
  }

  /** Enrichment is asked for exactly when the user exists and `include` contains "albums"; then
      exactly one request goes out, for that user, with the caller's header unchanged. */
  lemma EnrichOnlyWhenAsked(id: Models.Uuid, includes: Option<string>, jwt: string,
                            findById: Models.Uuid -> Option<Models.StoredEntity>, fetch: AlbumsRequest -> FetchResult)
    ensures var (user, calls) := GetUserById(id, includes, jwt, findById, fetch);
            && (user.None? <==> findById(id).None?)
            && (calls != [] <==> findById(id).Some? && WantsAlbums(includes))
            && (calls != [] ==> calls == [AlbumsRequest(findById(id).value.id.value, jwt)])
            && (calls == [] && user.Some? ==> user.value.albums.None?)
  {
  }

  /** The enriched read: with a body the user gets exactly those albums and nothing else changes;
      after a 4xx, a 5xx or a transport failure the user is returned as read, albums still null. */
  lemma EnrichmentOutcome(id: Models.Uuid, includes: Option<string>, jwt: string,
                          findById: Models.Uuid -> Option<Models.StoredEntity>, fetch: AlbumsRequest -> FetchResult)
    requires findById(id).Some? && WantsAlbums(includes)
    ensures var (user, calls) := GetUserById(id, includes, jwt, findById, fetch);
            var plain := ConvertToModel(findById(id).value);
            && |calls| == 1 && user.Some?
            && (fetch(calls[0]).Fetched? ==> user.value == plain.(albums := Some(fetch(calls[0]).albums)))
            && (!fetch(calls[0]).Fetched? ==> user.value == plain)
    ensures GetUserById(id, includes, jwt, findById, fetch).0.value.id == findById(id).value.id.value
  {
  }

  /** The service that owns the shared sink. */
  class UserService {
    const sink: UserSinks.UserSink

    constructor (sink: UserSinks.UserSink)
      ensures this.sink == sink
    {
      this.sink := sink;
    }

    /** createUser: convert, save, convert back; on success, tryEmitNext the answer. `saves`
        lists the entities handed to userRepository.save. */
    method CreateUser(r: Models.CreateUserRequest, encode: string -> string,
                      save: Models.UserEntity -> Result<Models.StoredEntity, SaveError>)
      returns (result: Result<Models.User, SaveError>, saves: seq<Models.UserEntity>)
      requires Models.Complete(r) && UserSinks.Valid(sink.State())
      modifies sink
      ensures (result, saves) == CreateResult(r, encode, save)
      ensures UserSinks.Valid(sink.State())
      ensures sink.State() == if result.Ok? then UserSinks.Emit(old(sink.State()), result.value) else old(sink.State())
    {
      var entity := ConvertToEntity(r, encode);
      var saved := save(entity);
      saves := [entity];
      if saved.Err? {
        return Err(saved.error), saves;
      }
      var user := ConvertToModel(saved.value);
      sink.TryEmitNext(user);
      result := Ok(user);
    }

    /** streamUser: a new subscription to the shared sink. */
    method StreamUser() returns (subscriber: nat)
      requires UserSinks.Valid(sink.State())
      modifies sink
      ensures subscriber == |old(sink.State()).queues|
      ensures sink.State() == UserSinks.Attach(old(sink.State())) && UserSinks.Valid(sink.State())
    {
      subscriber := sink.Subscribe();
    }
  }

  /** UserServiceTest's emission test: a user created before anyone subscribed is the first thing
      the first subscriber receives, and save was called once. */
  method CreateThenSubscribe(r: Models.CreateUserRequest, encode: string -> string,
                             save: Models.UserEntity -> Result<Models.StoredEntity, SaveError>)
    returns (created: Result<Models.User, SaveError>, received: Option<Models.User>, saves: seq<Models.UserEntity>)
    requires Models.Complete(r) && save(ConvertToEntity(r, encode)).Ok?
    ensures created.Ok? && received == Some(created.value)
    ensures saves == [ConvertToEntity(r, encode)]
    ensures created.value == ConvertToModel(save(ConvertToEntity(r, encode)).value)
  {
    var sink := new UserSinks.UserSink();
    var service := new UserService(sink);
    created, saves := service.CreateUser(r, encode, save);
    var subscriber := service.StreamUser();
    received := sink.Poll(subscriber);
  }

  /** A stream opened before a create receives exactly that one event. */
  method SubscribeThenCreate(r: Models.CreateUserRequest, encode: string -> string,
                             save: Models.UserEntity -> Result<Models.StoredEntity, SaveError>)
    returns (created: Result<Models.User, SaveError>, first: Option<Models.User>, second: Option<Models.User>)
    requires Models.Complete(r) && save(ConvertToEntity(r, encode)).Ok?
    ensures created.Ok? && first == Some(created.value) && second.None?
  {
    var sink := new UserSinks.UserSink();
    var service := new UserService(sink);
    var subscriber := service.StreamUser();
    var saves;
    created, saves := service.CreateUser(r, encode, save);
    first := sink.Poll(subscriber);
    second := sink.Poll(subscriber);
  }
}
