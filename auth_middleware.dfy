/**
 * src/middleware/authMiddleware.js: the password-hash helper and the authorization gate
 * `authenticateToken` that runs before every protected handler.
 */
module AuthMiddleware {
  import opened Common
  import opened Crypto
  import opened Http

  /** `generatePasswordHash`: bcrypt at the fixed cost of 10 rounds, its output returned as is. */
  function GeneratePasswordHash(o: Oracles, password: string, salt: Salt): (h: string)
    ensures h == o.hash(password, 10, salt)
  {
    o.hash(password, SaltRounds, salt)
  }

  /** The hash of a password verifies against that password, given bcrypt's own guarantee. */
  lemma GeneratedHashVerifies(o: Oracles, password: string, salt: Salt)
    requires HashCompareSound(o)
    ensures o.compare(password, Some(GeneratePasswordHash(o, password, salt))) == Ok(true)
  {
  }

  /** `req.cookies?.jwt`, as cookie-parser exposes it. */
  function JwtCookie(cookies: CookieJar): (token: Option<Token>)
    ensures token.Some? <==> "jwt" in cookies
    ensures token.Some? ==> token.value == cookies["jwt"]
  {
    if "jwt" in cookies then Some(cookies["jwt"]) else None
  }

  /** `!token` in JavaScript: the cookie is missing or the empty string. */
  predicate NoToken(token: Option<Token>) {
    token.None? || token.value == ""
  }

  /** A request is authenticated iff it carries a token that verifies under the key now. */
  ghost predicate Authenticated(token: Option<Token>, key: Key, verify: Verifier, now: int) {
    !NoToken(token) && verify(token.value, key, now).Ok?
  }

  datatype Decision = Reject401 | Reject403 | Admit(user: Payload)

  /** The gate's decision: no token, a token that fails verification, or admission. */
  function Decide(token: Option<Token>, key: Key, verify: Verifier, now: int): (d: Decision)
    ensures d.Reject401? <==> NoToken(token)
    ensures d.Reject403? <==> !NoToken(token) && verify(token.value, key, now).Err?
    ensures d.Admit? <==> Authenticated(token, key, verify, now)
    ensures d.Admit? ==> d.user == verify(token.value, key, now).value
  {
    if NoToken(token) then Reject401
    else
      match verify(token.value, key, now)
      case Err(_) => Reject403
      case Ok(user) => Admit(user)
  }

  const NoTokenMessage := "Access Denied: No token provided"
  const BadTokenMessage := "Invalid or expired token"

  /** What the gate itself sends: a rejection, or nothing when it passes control on. */
  function GateResponse(d: Decision): (r: Option<Response>)
    ensures r.None? <==> d.Admit?
    ensures d.Reject401? ==> r == Some(Response(401, Message(NoTokenMessage), KeepCookies))
    ensures d.Reject403? ==> r == Some(Response(403, Message(BadTokenMessage), KeepCookies))
  {
    match d
    case Reject401 => Some(Response(401, Message(NoTokenMessage), KeepCookies))
    case Reject403 => Some(Response(403, Message(BadTokenMessage), KeepCookies))
    case Admit(_) => None
  }

  /** The gate's answer to a rejected token does not depend on why verification failed. */
  lemma RejectionHidesReason(token: Option<Token>, key: Key, v1: Verifier, v2: Verifier, now: int)
    requires !NoToken(token)
    requires v1(token.value, key, now).Err? && v2(token.value, key, now).Err?
    ensures GateResponse(Decide(token, key, v1, now)) == GateResponse(Decide(token, key, v2, now))
    ensures GateResponse(Decide(token, key, v1, now)).value.status == 403
  {
  }

  /** The incoming request: its parsed cookies, and the `user` slot the gate fills in. */
  class Request {
    const cookies: CookieJar
    var user: Option<Payload>

    constructor (cookies: CookieJar)
      ensures this.cookies == cookies && user == None
    {
      this.cookies := cookies;
      user := None;
    }
  }

  /**
   * `authenticateToken(req, res, next)`. `sent` is the response the gate writes, and
   * `nextCalls` counts the calls to `next`. Only `req.user` may change, and only on admission.
   */
  method AuthenticateToken(req: Request, key: Key, verify: Verifier, now: int)
    returns (sent: Option<Response>, nextCalls: nat)
    modifies req`user
    ensures var d := Decide(JwtCookie(req.cookies), key, verify, now);
            && sent == GateResponse(d)
            && nextCalls == (if d.Admit? then 1 else 0)
            && req.user == (if d.Admit? then Some(d.user) else old(req.user))
  {
    nextCalls := 0;
    var token := JwtCookie(req.cookies);
    if NoToken(token) {
      sent := Some(Response(401, Message(NoTokenMessage), KeepCookies));
      return;
    }
    var verified := verify(token.value, key, now);
    if verified.Err? {
      sent := Some(Response(403, Message(BadTokenMessage), KeepCookies));
      return;
    }
    req.user := Some(verified.value);
    sent := None;
    nextCalls := nextCalls + 1;
  }
}
