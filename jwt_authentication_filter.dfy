/**
 * JwtAuthenticationFilter: the web filter that every request passes through. It takes
 * a bearer token from the `Authorization` header and either lets the request through
 * with no identity, rejects it with 401, or lets it through with the token's subject
 * as the authenticated principal of this request's security context.
 */
module AuthFilter {
  import opened Wrappers
  import JavaStrings
  import Jwt
  import Http

  const BearerPrefix: string := "Bearer "

  /** UsernamePasswordAuthenticationToken(principal, credentials, authorities); the
      three-argument constructor marks the token as authenticated. */
  datatype Authentication = Authentication(principal: string, credentials: Option<string>,
                                           authorities: seq<string>, authenticated: bool)

  /** The three ways a request leaves the filter. */
  datatype GateDecision = Anonymous | Rejected | Authenticated(authentication: Authentication)

  /** One call of chain.filter: the exchange passed on and the authentication written into
      the reactive security context around it (None: the context is left as it was). */
  datatype ChainCall = ChainCall(exchange: Http.Request, authentication: Option<Authentication>)

  /** extractToken: the trimmed rest of a header that has text and starts with "Bearer ". */
  function ExtractToken(req: Http.Request): Option<string> {
    match Http.FirstAuthorization(req)
    case None => None
    case Some(header) =>
      if JavaStrings.HasText(header) && JavaStrings.StartsWith(header, BearerPrefix)
      then Some(JavaStrings.Trim(header[|BearerPrefix|..]))
      else None
  }

  /** filter's decision: no token passes through, an invalid one is rejected, a valid one
      authenticates its subject with no credentials and no authorities. */
  function Decide(h: Jwt.Handler, req: Http.Request, now: nat): GateDecision {
    match ExtractToken(req)
    case None => Anonymous
    case Some(token) =>
      if Jwt.ValidateJwt(h, token, now)
      then Authenticated(Authentication(Jwt.ExtractTokenSubject(h, token), None, [], true))
      else Rejected
  }

  /** The calls of the downstream chain each decision makes. */
  function ChainCalls(d: GateDecision, req: Http.Request): seq<ChainCall> {
    match d
    case Anonymous => [ChainCall(req, None)]
    case Rejected => []
    case Authenticated(a) => [ChainCall(req, Some(a))]
  }

  /** The response half of the exchange: the filter only ever writes its status and completes it. */
  class ServerResponse {
    var statusCode: Option<int>
    var complete: bool

    constructor ()
      ensures statusCode == None && !complete
    {
      statusCode := None;
      complete := false;
    }
  }

  /** handleInvalidToken: status 401, then setComplete. */
  method HandleInvalidToken(response: ServerResponse)
    modifies response
    ensures response.statusCode == Some(Http.Unauthorized) && response.complete
  {
    response.statusCode := Some(Http.Unauthorized);
    response.complete := true;
  }

  /** filter: returns the downstream calls it makes; the response is written only on rejection. */
  method Filter(h: Jwt.Handler, req: Http.Request, response: ServerResponse, now: nat)
    returns (calls: seq<ChainCall>)
    modifies response
    ensures calls == ChainCalls(Decide(h, req, now), req)
    ensures Decide(h, req, now).Rejected? ==>
              response.statusCode == Some(Http.Unauthorized) && response.complete
    ensures !Decide(h, req, now).Rejected? ==> unchanged(response)
  {
    var token := ExtractToken(req);
    if token.None? {
      return [ChainCall(req, None)];
    }
    var isValid := Jwt.ValidateJwt(h, token.value, now);
    if isValid {
      var subject := Jwt.ExtractTokenSubject(h, token.value);
      calls := [ChainCall(req, Some(Authentication(subject, None, [], true)))];
    } else {
      HandleInvalidToken(response);
      calls := [];
    }
  }

  /** extractToken returns the trimmed remainder exactly when the first header value starts
      with the case-sensitive prefix "Bearer " (such a header always has text). */
  lemma ExtractTokenSpec(req: Http.Request)
    ensures ExtractToken(req).Some? <==>
              req.authorization != [] && JavaStrings.StartsWith(req.authorization[0], BearerPrefix)
    ensures ExtractToken(req).Some? ==>
              ExtractToken(req).value == JavaStrings.Trim(req.authorization[0][7..])
  {
    if req.authorization != [] && JavaStrings.StartsWith(req.authorization[0], BearerPrefix) {
      var header := req.authorization[0];
      assert header[0] == 'B' && !JavaStrings.IsWhitespace(header[0]);
    }
  }

  /** Whatever the decision, the chain is called at most once, and always on the exchange it was given. */
  lemma AtMostOneChainCall(h: Jwt.Handler, req: Http.Request, now: nat)
    ensures |ChainCalls(Decide(h, req, now), req)| == if Decide(h, req, now).Rejected? then 0 else 1
    ensures forall c :: c in ChainCalls(Decide(h, req, now), req) ==> c.exchange == req
  {
  }

  /** "Bearer " followed only by blanks gives the empty token, which is rejected rather than anonymous. */
  lemma {:induction false} BlankBearerRejected(h: Jwt.Handler, blanks: string, rest: seq<string>, m: Http.HttpMethod, path: string, now: nat)
    requires Jwt.Sound(h.jws)
    requires forall i :: 0 <= i < |blanks| ==> JavaStrings.IsTrimmable(blanks[i])
    ensures ExtractToken(Http.Request(m, path, [BearerPrefix + blanks] + rest)) == Some("")
    ensures Decide(h, Http.Request(m, path, [BearerPrefix + blanks] + rest), now) == Rejected
  {
    var req := Http.Request(m, path, [BearerPrefix + blanks] + rest);
    ExtractTokenSpec(req);
    assert (BearerPrefix + blanks)[7..] == blanks;
    JavaStrings.TrimSpec(blanks);
    Jwt.EmptyTokenRejected(h, now);
  }

  /** The prefix is case-sensitive: "bearer " yields no token, so such a request is anonymous. */
  lemma LowerCaseSchemeIsAnonymous(h: Jwt.Handler, token: string, m: Http.HttpMethod, path: string, now: nat)
    ensures Decide(h, Http.Request(m, path, ["bearer " + token]), now) == Anonymous
  {
    var req := Http.Request(m, path, ["bearer " + token]);
    ExtractTokenSpec(req);
    assert ("bearer " + token)[0] == 'b';
  }

  /** The header the login endpoint issues, `"Bearer " + token`, gives the token back. */
  lemma {:induction false} BearerHeaderRoundTrip(req: Http.Request, token: string)
    requires JavaStrings.IsTrimmed(token)
    requires req.authorization != [] && req.authorization[0] == BearerPrefix + token
    ensures ExtractToken(req) == Some(token)
  {
    ExtractTokenSpec(req);
    assert JavaStrings.StartsWith(req.authorization[0], BearerPrefix);
    assert req.authorization[0][7..] == token;
    JavaStrings.TrimOfTrimmed(token);
  }
}
