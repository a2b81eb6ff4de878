/** The records that flow through the service: the API's User, the stored UserEntity, the
    downstream Album, and the body of a create request. */
module Models {
  import opened Wrappers

  /** A UUID, written as its canonical text: UUID.toString is injective, so comparing the
      texts compares the ids. */
  type Uuid = string

  datatype Album = Album(id: string, title: string)

  /** The API's view of a user: no password; `albums` is null unless a read enriched it. */
  datatype User = User(id: Uuid, firstName: string, lastName: string, email: string, albums: Option<seq<Album>>)

  /** The persisted row; `id` is null until the repository assigns it on save. */
  datatype UserEntity = UserEntity(id: Option<Uuid>, firstName: string, lastName: string, email: string, password: string)

  /** A row as the repository returns it: it has an id. */
  type StoredEntity = e: UserEntity | e.id.Some? witness UserEntity(Some(""), "", "", "", "")

  /** The JSON body of POST /users; a missing field is null. */
  datatype CreateUserRequest = CreateUserRequest(firstName: Option<string>, lastName: Option<string>,
                                                 email: Option<string>, password: Option<string>)

  /** None of the request's fields is null. */
  predicate Complete(r: CreateUserRequest) {
    r.firstName.Some? && r.lastName.Some? && r.email.Some? && r.password.Some?
  }
}
