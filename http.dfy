/** The parts of an HTTP exchange the security chain and the controllers look at. */
module Http {
  import opened Wrappers

  datatype HttpMethod = GET | HEAD | POST | PUT | PATCH | DELETE | OPTIONS | TRACE

  /** An inbound request: method (verb), path (without the query string) and the values of its
      `Authorization` header in the order they arrived. */
  datatype Request = Request(verb: HttpMethod, path: string, authorization: seq<string>)

  /** HttpHeaders.getFirst(AUTHORIZATION): null when the header is absent. */
  function FirstAuthorization(req: Request): Option<string> {
    if req.authorization == [] then None else Some(req.authorization[0])
  }

  /** The String a `@RequestHeader` parameter receives: every value of the header, in order,
      joined with ",". */
  function JoinedValues(values: seq<string>): string {
    if |values| == 0 then ""
    else if |values| == 1 then values[0]
    else values[0] + "," + JoinedValues(values[1..])
  }

  const Ok: int := 200
  const Created: int := 201
  const BadRequest: int := 400
  const Unauthorized: int := 401
  const NotFound: int := 404
  const InternalServerError: int := 500
}
