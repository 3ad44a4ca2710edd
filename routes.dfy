/**
 * The route table of src/routes: which endpoints run `authenticateToken` before their
 * handler. Only the composition of gate and handler is modelled, not Express routing.
 */
module Routes {
  import opened Common
  import opened Crypto
  import opened Http
  import opened AuthMiddleware

  datatype Endpoint =
    | ListPosts      // GET  /api/posts
    | ReadPost       // GET  /api/posts/:id
    | UpdatePost     // PUT  /api/posts/:id
    | CreatePost     // POST /api/posts/create
    | UploadImage    // POST /api/upload
    | RegisterRoute  // POST /api/register
    | LoginRoute     // POST /api/login
    | LogoutRoute    // POST /api/logout
    | AuthStatus     // GET  /api/auth-status

  /** The endpoints whose middleware chain starts with `authenticateToken`. */
  predicate Guarded(e: Endpoint) {
    e == UpdatePost || e == CreatePost || e == UploadImage
  }

  /** Either the gate answered, or the handler runs with the given `req.user`. */
  datatype Dispatched = Answered(response: Response) | HandlerRuns(user: Option<Payload>)

  /** One request to endpoint `e`, carrying `token`, whose `req.user` starts as `user`. */
  function Dispatch(e: Endpoint, token: Option<Token>, user: Option<Payload>,
                    key: Key, verify: Verifier, now: int): (o: Dispatched)
    ensures !Guarded(e) ==> o == HandlerRuns(user)
    ensures Guarded(e) ==> (o.HandlerRuns? <==> Authenticated(token, key, verify, now))
    ensures Guarded(e) && o.HandlerRuns? ==> o.user == Some(verify(token.value, key, now).value)
    ensures Guarded(e) && o.Answered? ==> Some(o.response) == GateResponse(Decide(token, key, verify, now))
    ensures Guarded(e) && o.Answered? ==>
              o.response.status == (if NoToken(token) then 401 else 403)
  {
    if !Guarded(e) then HandlerRuns(user)
    else
      var d := Decide(token, key, verify, now);
      match GateResponse(d)
      case Some(response) => Answered(response)
      case None => HandlerRuns(Some(d.user))
  }
}
