/**
 * UserController's four endpoints under /users: create (201 with a Location, 400 on an invalid
 * body, 500 when the service fails), read by id behind @PostAuthorize, the paged listing, and
 * the event stream.
 */
module UserApi {
  import opened Wrappers
  import Http
  import Models
  import Validation
  import Users
  import UserSinks

  /** A ResponseEntity<User>: status, Location header and body. */
  datatype UserResponse = UserResponse(status: int, location: Option<string>, body: Option<Models.User>)

  /** The created user's answer: 201, `Location: /users/<id>`, the user as body. */
  function CreatedResponse(u: Models.User): (resp: UserResponse)
    ensures resp.status == Http.Created && resp.body == Some(u)
    ensures resp.location.Some? && |resp.location.value| == 7 + |u.id| && resp.location.value[..7] == "/users/" && resp.location.value[7..] == u.id
  {
    UserResponse(Http.Created, Some("/users/" + u.id), Some(u))
  }

  /** map to 200 with the user, switchIfEmpty to 404 with no body. */
  function FoundResponse(found: Option<Models.User>): (resp: UserResponse)
    ensures resp.location.None?
    ensures found.Some? ==> resp.status == Http.Ok && resp.body == found
    ensures found.None? ==> resp.status == Http.NotFound && resp.body.None?
  {
    match found
    case Some(u) => UserResponse(Http.Ok, None, Some(u))
    case None => UserResponse(Http.NotFound, None, None)
  }

  /** `returnObject.body != null and returnObject.body.id.toString().equals(authentication.principal)`. */
  predicate PostAuthorize(resp: UserResponse, principal: string) {
    resp.body.Some? && resp.body.value.id == principal
  }

  /** What the read endpoint ends in: the response released to the caller, or the
      AccessDeniedException that @PostAuthorize raises in its place. */
  datatype ReadOutcome = Released(response: UserResponse) | Denied

  /** getUserById for an authenticated `principal`: the service (album request included) runs
      first, and the post-check decides on its answer. */
  function GetUserById(id: Models.Uuid, includes: Option<string>, jwt: string, principal: string,
                       findById: Models.Uuid -> Option<Models.StoredEntity>,
                       fetch: Users.AlbumsRequest -> Users.FetchResult): (ReadOutcome, seq<Users.AlbumsRequest>)
  {
    var (found, calls) := Users.GetUserById(id, includes, jwt, findById, fetch);
    var resp := FoundResponse(found);
    (if PostAuthorize(resp, principal) then Released(resp) else Denied, calls)
  }

  /** The repository answers a lookup by id with the row of that id. */
  ghost predicate FindsById(findById: Models.Uuid -> Option<Models.StoredEntity>) {
    forall id: Models.Uuid :: findById(id).Some? ==> findById(id).value.id == Some(id)
  }

  /** Only the owner gets a user back: a released response is a 200 whose body has the caller's
      id; for a repository that finds by id, the read is released exactly when the user exists
      and the caller is that user. */
  lemma OwnerOnly(id: Models.Uuid, includes: Option<string>, jwt: string, principal: string,
                  findById: Models.Uuid -> Option<Models.StoredEntity>, fetch: Users.AlbumsRequest -> Users.FetchResult)
    ensures var (outcome, _) := GetUserById(id, includes, jwt, principal, findById, fetch);
            outcome.Released? ==>
              && outcome.response.status == Http.Ok
              && outcome.response.body.Some? && outcome.response.body.value.id == principal
    ensures FindsById(findById) ==>
              (GetUserById(id, includes, jwt, principal, findById, fetch).0.Released? <==>
               findById(id).Some? && id == principal)
  {
    var (found, _) := Users.GetUserById(id, includes, jwt, findById, fetch);
    Users.EnrichOnlyWhenAsked(id, includes, jwt, findById, fetch);
  }

  /** A missing user never reaches the caller as 404: the empty body fails the post-check. */
  lemma MissingUserDenied(id: Models.Uuid, includes: Option<string>, jwt: string, principal: string,
                          findById: Models.Uuid -> Option<Models.StoredEntity>, fetch: Users.AlbumsRequest -> Users.FetchResult)
    requires findById(id).None?
    ensures GetUserById(id, includes, jwt, principal, findById, fetch) == (Denied, [])
  {
  }

  /** The post-check comes after the service: reading someone else's user with albums asked
      still sends the album request, carrying the caller's own header, and then is denied. */
  lemma AlbumsFetchedBeforeCheck(id: Models.Uuid, includes: Option<string>, jwt: string, principal: string,
                                 findById: Models.Uuid -> Option<Models.StoredEntity>, fetch: Users.AlbumsRequest -> Users.FetchResult)
    requires findById(id).Some? && findById(id).value.id.value != principal && Users.WantsAlbums(includes)
    ensures GetUserById(id, includes, jwt, principal, findById, fetch) ==
              (Denied, [Users.AlbumsRequest(findById(id).value.id.value, jwt)])
  {
  }

  /** A valid PageRequest: page index and size. */
  datatype Pageable = Pageable(page: nat, size: nat)

  /** Why PageRequest.of throws. */
  datatype PageError = NegativePage | SizeBelowOne

  const DefaultPage: int := 0
  const DefaultLimit: int := 50

  /** `if (page > 0) page = page - 1`: pages count from 1, but 0 is also the first page. */
  function PageIndex(page: int): int {
    if page > 0 then page - 1 else page
  }

  /** PageRequest.of(page, size): the page index is checked first, then the size. */
  function PageRequestOf(page: int, size: int): (r: Result<Pageable, PageError>)
    ensures r.Ok? <==> page >= 0 && size >= 1
    ensures r.Ok? ==> r.value.page == page && r.value.size == size
    ensures page < 0 ==> r == Err(NegativePage)
    ensures page >= 0 && size < 1 ==> r == Err(SizeBelowOne)
  {
    if page < 0 then Err(NegativePage) else if size < 1 then Err(SizeBelowOne) else Ok(Pageable(page, size))
  }

  /** getAllUser with the query parameters as given (absent means the default): the page the
      repository returns for the adjusted index, as Users. */
  function GetAllUser(page: Option<int>, limit: Option<int>,
                      findAllBy: Pageable -> seq<Models.StoredEntity>): Result<seq<Models.User>, PageError>
  {
    match PageRequestOf(PageIndex(page.GetOr(DefaultPage)), limit.GetOr(DefaultLimit))
    case Err(e) => Err(e)
    case Ok(p) => Ok(Users.GetAllUser(findAllBy(p)))
  }

  /** Pages 0 and 1 are both the first page, page n >= 1 is index n - 1, and a negative page is
      refused; without parameters the first 50 rows are asked for. */
  lemma PagingMeans(page: int, limit: int, findAllBy: Pageable -> seq<Models.StoredEntity>)
    ensures PageIndex(0) == 0 && PageIndex(1) == 0
    ensures page >= 1 ==> PageIndex(page) == page - 1
    ensures (PageIndex(page) >= 0 <==> page >= 0)
    ensures page < 0 ==> GetAllUser(Some(page), Some(limit), findAllBy) == Err(NegativePage)
    ensures page >= 0 && limit < 1 ==> GetAllUser(Some(page), Some(limit), findAllBy) == Err(SizeBelowOne)
    ensures GetAllUser(None, None, findAllBy) == Ok(Users.GetAllUser(findAllBy(Pageable(0, 50))))
    ensures page >= 0 && limit >= 1 ==>
              GetAllUser(Some(page), Some(limit), findAllBy) == Ok(Users.GetAllUser(findAllBy(Pageable(PageIndex(page), limit))))
  {
  }

  /** The controller over the service. */
  class UserController {
    const service: Users.UserService

    constructor (service: Users.UserService)
      ensures this.service == service
    {
      this.service := service;
    }

    /** POST /users: an invalid body is answered 400 before the service sees it, so nothing is
        saved; otherwise the service saves once, its user is answered 201 and its failure 500.
        `saves` lists the entities handed to userRepository.save. */
    method CreateUser(r: Models.CreateUserRequest, isEmail: string -> bool, encode: string -> string,
                      save: Models.UserEntity -> Result<Models.StoredEntity, Users.SaveError>)
      returns (resp: UserResponse, saves: seq<Models.UserEntity>)
      requires UserSinks.Valid(service.sink.State())
      modifies service.sink
      ensures UserSinks.Valid(service.sink.State())
      ensures !Validation.IsValid(r, isEmail) ==>
                resp.status == Http.BadRequest && saves == [] && service.sink.State() == old(service.sink.State())
      ensures Validation.IsValid(r, isEmail) ==> saves == [Users.ConvertToEntity(r, encode)]
      ensures Validation.IsValid(r, isEmail) ==>
                match Users.CreateResult(r, encode, save).0
                case Ok(u) => resp == CreatedResponse(u) && service.sink.State() == UserSinks.Emit(old(service.sink.State()), u)
                case Err(_) => resp.status == Http.InternalServerError && service.sink.State() == old(service.sink.State())
    {
      if !Validation.IsValid(r, isEmail) {
        return UserResponse(Http.BadRequest, None, None), [];
      }
      Validation.ValidMeans(r, isEmail);
      var result;
      result, saves := service.CreateUser(r, encode, save);
      match result
      case Ok(u) => resp := CreatedResponse(u);
      case Err(_) => resp := UserResponse(Http.InternalServerError, None, None);
    }

    /** GET /users/stream: one more subscriber of the shared sink. */
    method StreamUser() returns (subscriber: nat)
      requires UserSinks.Valid(service.sink.State())
      modifies service.sink
      ensures subscriber == |old(service.sink.State()).queues|
      ensures service.sink.State() == UserSinks.Attach(old(service.sink.State())) && UserSinks.Valid(service.sink.State())
    {
      subscriber := service.StreamUser();
    }
  }
}
