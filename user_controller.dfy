/**
 * src/controllers/userController.js: registration under the single-admin policy, login
 * that sets the session cookie, logout, and the session-status probe. Each handler is
 * specified by a function of the store contents and the request; the methods run the
 * same steps against the store object.
 */
module UserController {
  import opened Common
  import opened UserModel
  import opened Crypto
  import opened Http
  import opened AuthValidation
  import opened AuthMiddleware

  /** Process-wide settings read from the environment: `ADMIN_USERNAME` (maybe unset) and `JWT_SECRET`. */
  datatype Config = Config(adminUsername: Option<string>, jwtSecret: Key)

  const RefusedMessage := "Can't register this user"
  const RegisteredMessage := "User registered successfully"
  const RegisterFailedMessage := "Internal Server Error"
  const InvalidCredentialsError := "Invalid credentials"
  const LoginFailedMessage := "Login failed"
  const LoginOkMessage := "Authentication Successful"
  const LogoutMessage := "Logout Successful"

  /** The cookie options `loginUser` passes to `res.cookie('jwt', ...)`. */
  const SessionCookie := CookieOptions(true, true, "Lax", 60 * 60 * 1000)

  const InvalidCredentials := Response(401, CredentialsError(InvalidCredentialsError), KeepCookies)
  const LoginOkBody := AuthState(true, Some(LoginOkMessage), None)

  /** The user `registerUser` would store for a body that passed validation. */
  function NewAdmin(nextId: nat, o: Oracles, body: RegisterBody, salt: Salt): User {
    User(nextId, FieldText(body.username), FieldText(body.email),
         Some(GeneratePasswordHash(o, FieldText(body.password), salt)))
  }

  /** `registerUser`: validation, then the admin-name policy, then hash and save. */
  function Register(users: seq<User>, nextId: nat, cfg: Config, o: Oracles, isEmail: string -> bool,
                    body: RegisterBody, salt: Salt): (r: Response)
    ensures r.cookie == KeepCookies
    ensures r.status == 201 || r.status == 400 || r.status == 500
    // validation errors answer first, whatever the store and the configuration
    ensures |RegistrationErrors(body, isEmail)| > 0 ==>
              r == Response(400, ValidationErrors(RegistrationErrors(body, isEmail)), KeepCookies)
    // any other username than the configured admin is refused; an unset admin refuses everyone
    ensures |RegistrationErrors(body, isEmail)| == 0 && cfg.adminUsername != Some(FieldText(body.username)) ==>
              r == Response(400, Message(RefusedMessage), KeepCookies)
    ensures cfg.adminUsername.None? ==> r.status == 400
    // success stores the admin name, the email and the hash of the password, never the password
    ensures r.status == 201 <==>
              && |RegistrationErrors(body, isEmail)| == 0
              && cfg.adminUsername == Some(FieldText(body.username))
              && FieldText(body.email) != ""
              && FindByEmail(users, FieldText(body.email)).None?
    ensures r.status == 201 ==>
              && r.body == Registered(RegisteredMessage, NewAdmin(nextId, o, body, salt))
              && Some(r.body.user.username) == cfg.adminUsername
              && r.body.user.passwordHash == Some(GeneratePasswordHash(o, FieldText(body.password), salt))
    // an admin registration that the store rejects (email taken, or empty) fails as a server error
    ensures r.status == 500 ==> r == Response(500, ServerError(RegisterFailedMessage), KeepCookies)
    ensures && |RegistrationErrors(body, isEmail)| == 0
            && cfg.adminUsername == Some(FieldText(body.username))
            && Insert(users, nextId, FieldText(body.username), FieldText(body.email),
                      Some(GeneratePasswordHash(o, FieldText(body.password), salt))).Err?
            ==> r == Response(500, ServerError(RegisterFailedMessage), KeepCookies)
  {
    var errors := RegistrationErrors(body, isEmail);
    if |errors| > 0 then Response(400, ValidationErrors(errors), KeepCookies)
    else
      var username, email, password := FieldText(body.username), FieldText(body.email), FieldText(body.password);
      if cfg.adminUsername != Some(username) then Response(400, Message(RefusedMessage), KeepCookies)
      else
        var passwordHash := GeneratePasswordHash(o, password, salt);
        match Insert(users, nextId, username, email, Some(passwordHash))
        case Ok(user) => Response(201, Registered(RegisteredMessage, user), KeepCookies)
        case Err(_) => Response(500, ServerError(RegisterFailedMessage), KeepCookies)
  }

  /** `registerUser` against the store: only a 201 answer writes, and it appends the stored user. */
  method RegisterUser(store: UserStore, cfg: Config, o: Oracles, isEmail: string -> bool,
                      body: RegisterBody, salt: Salt) returns (r: Response)
    requires store.Valid()
    modifies store
    ensures store.Valid()
    ensures r == Register(old(store.users), old(store.nextId), cfg, o, isEmail, body, salt)
    ensures store.users == if r.status == 201 then old(store.users) + [r.body.user] else old(store.users)
    ensures store.nextId == if r.status == 201 then old(store.nextId) + 1 else old(store.nextId)
  {
    var errors := RegistrationErrors(body, isEmail);
    if |errors| > 0 {
      return Response(400, ValidationErrors(errors), KeepCookies);
    }
    var username, email, password := FieldText(body.username), FieldText(body.email), FieldText(body.password);
    if cfg.adminUsername != Some(username) {
      return Response(400, Message(RefusedMessage), KeepCookies);
    }
    var passwordHash := GeneratePasswordHash(o, password, salt);
    var saved := store.Save(username, email, Some(passwordHash));
    match saved
    case Ok(user) =>
      r := Response(201, Registered(RegisteredMessage, user), KeepCookies);
    case Err(_) =>
      r := Response(500, ServerError(RegisterFailedMessage), KeepCookies);
  }

  /** Every stored user carries the configured admin name. */
  ghost predicate OnlyAdmins(users: seq<User>, admin: Option<string>) {
    forall u :: u in users ==> Some(u.username) == admin
  }

  /** Registration keeps the store admin-only: it never stores a user under another name. */
  lemma RegisterKeepsOnlyAdmins(users: seq<User>, nextId: nat, cfg: Config, o: Oracles,
                                isEmail: string -> bool, body: RegisterBody, salt: Salt)
    requires OnlyAdmins(users, cfg.adminUsername)
    ensures var r := Register(users, nextId, cfg, o, isEmail, body, salt);
            OnlyAdmins(if r.status == 201 then users + [r.body.user] else users, cfg.adminUsername)
  {
  }

  /** The body of a login request. */
  datatype LoginBody = LoginBody(email: string, password: string)

  /** `loginUser`: look up by email, compare the password, sign a one-hour token, set it as a cookie. */
  function Login(users: seq<User>, key: Key, o: Oracles, body: LoginBody, now: int): (r: Response)
    ensures r.status == 200 || r.status == 401 || r.status == 500
    // an unknown email and a wrong password get the same answer, and no cookie
    ensures r.status == 401 <==>
              || FindByEmail(users, body.email).None?
              || o.compare(body.password, FindByEmail(users, body.email).value.passwordHash) == Ok(false)
    ensures r.status == 401 ==> r == InvalidCredentials
    ensures r.status == 500 ==> r == Response(500, ServerError(LoginFailedMessage), KeepCookies)
    ensures r.status != 200 ==> r.cookie == KeepCookies
    // success: the password matched, the token was signed for one hour over { _id, email },
    // and it travels only in the session cookie, never in the JSON body
    ensures r.status == 200 <==>
              && FindByEmail(users, body.email).Some?
              && o.compare(body.password, FindByEmail(users, body.email).value.passwordHash) == Ok(true)
              && o.sign(Claims(FindByEmail(users, body.email).value.id, body.email), key, SessionTtlSeconds, now).Ok?
    ensures r.status == 200 ==>
              && FindByEmail(users, body.email).Some?
              && var u := FindByEmail(users, body.email).value;
              && o.compare(body.password, u.passwordHash) == Ok(true)
              && o.sign(Claims(u.id, body.email), key, SessionTtlSeconds, now).Ok?
              && r.cookie == SetCookie("jwt", o.sign(Claims(u.id, body.email), key, SessionTtlSeconds, now).value,
                                       SessionCookie)
              && r.body == LoginOkBody
  {
    match FindByEmail(users, body.email)
    case None => InvalidCredentials
    case Some(user) =>
      match o.compare(body.password, user.passwordHash)
      case Err(_) => Response(500, ServerError(LoginFailedMessage), KeepCookies)
      case Ok(matches) =>
        if !matches then InvalidCredentials
        else
          match o.sign(Claims(user.id, body.email), key, SessionTtlSeconds, now)
          case Err(_) => Response(500, ServerError(LoginFailedMessage), KeepCookies)
          case Ok(token) => Response(200, LoginOkBody, SetCookie("jwt", token, SessionCookie))
  }

  /** `loginUser` against the store; it only reads the store. */
  method LoginUser(store: UserStore, cfg: Config, o: Oracles, body: LoginBody, now: int) returns (r: Response)
    requires store.Valid()
    ensures r == Login(store.users, cfg.jwtSecret, o, body, now)
  {
    var user := store.FindOne(body.email);
    if user.None? {
      return InvalidCredentials;
    }
    var matches := o.compare(body.password, user.value.passwordHash);
    if matches.Err? {
      return Response(500, ServerError(LoginFailedMessage), KeepCookies);
    }
    if !matches.value {
      return InvalidCredentials;
    }
    var token := o.sign(Claims(user.value.id, body.email), cfg.jwtSecret, SessionTtlSeconds, now);
    if token.Err? {
      return Response(500, ServerError(LoginFailedMessage), KeepCookies);
    }
    r := Response(200, LoginOkBody, SetCookie("jwt", token.value, SessionCookie));
  }

  /**
   * A stored user without a password hash can never log in: bcrypt throws on the missing
   * hash and the handler answers 500, with no cookie.
   */
  lemma HashlessUserCannotLogIn(users: seq<User>, key: Key, o: Oracles, body: LoginBody, now: int)
    requires CompareRejectsMissingHash(o)
    requires FindByEmail(users, body.email).Some? && FindByEmail(users, body.email).value.passwordHash.None?
    ensures Login(users, key, o, body, now) == Response(500, ServerError(LoginFailedMessage), KeepCookies)
  {
  }

  /** Unknown email and wrong password are indistinguishable to the client. */
  lemma LoginFailuresAreUniform(users1: seq<User>, users2: seq<User>, key: Key, o: Oracles,
                                body: LoginBody, now: int)
    requires FindByEmail(users1, body.email).None?
    requires FindByEmail(users2, body.email).Some?
    requires o.compare(body.password, FindByEmail(users2, body.email).value.passwordHash) == Ok(false)
    ensures Login(users1, key, o, body, now) == Login(users2, key, o, body, now) == InvalidCredentials
  {
  }

  /** The token is not in the body: two signers minting different tokens give the same body. */
  lemma LoginBodyIndependentOfToken(users: seq<User>, key: Key, o1: Oracles, o2: Oracles,
                                    body: LoginBody, now: int)
    requires forall p, h :: o1.compare(p, h) == o2.compare(p, h)
    requires forall c, k, ttl, t :: o1.sign(c, k, ttl, t).Ok? == o2.sign(c, k, ttl, t).Ok?
    ensures Login(users, key, o1, body, now).status == Login(users, key, o2, body, now).status
    ensures Login(users, key, o1, body, now).body == Login(users, key, o2, body, now).body
  {
  }

  /**
   * The session cookie lives exactly as long as the token in it: at every later moment the
   * browser still sends the cookie iff the gate admits its token, with the signed claims.
   */
  lemma SessionCookieMatchesTokenLifetime(users: seq<User>, key: Key, o: Oracles,
                                          body: LoginBody, loginAt: int, now: int)
    requires CodecSound(o)
    requires Login(users, key, o, body, loginAt).status == 200
    ensures var r := Login(users, key, o, body, loginAt);
            var d := Decide(Some(r.cookie.value), key, o.verify, now);
            && (CookieLive(r.cookie.options, loginAt, now) <==> d.Admit?)
            && (d.Admit? ==> d.user.claims == Claims(FindByEmail(users, body.email).value.id, body.email))
            && (!d.Admit? ==> d == Reject403)
  {
  }

  /** A user who registered can log in with the same email and password. */
  lemma RegisterThenLogin(users: seq<User>, nextId: nat, cfg: Config, o: Oracles,
                          isEmail: string -> bool, body: RegisterBody, salt: Salt, now: int)
    requires StoreInvariant(users, nextId)
    requires HashCompareSound(o)
    requires Register(users, nextId, cfg, o, isEmail, body, salt).status == 201
    requires forall c, k, ttl, t :: o.sign(c, k, ttl, t).Ok?
    ensures var stored := users + [Register(users, nextId, cfg, o, isEmail, body, salt).body.user];
            Login(stored, cfg.jwtSecret, o, LoginBody(FieldText(body.email), FieldText(body.password)), now).status == 200
  {
  }

  /** `logoutUser`: clear the session cookie and report signed-out, whatever the request holds. */
  function Logout(): (r: Response)
    ensures r.status == DefaultStatus && r.cookie == ClearCookie("jwt")
    ensures r.body.AuthState? && !r.body.isAuthenticated
  {
    Response(DefaultStatus, AuthState(false, Some(LogoutMessage), None), ClearCookie("jwt"))
  }

  /** `checkAuthStatus`: report whether the request's token verifies; the error reason is echoed. */
  function CheckAuthStatus(token: Option<Token>, key: Key, verify: Verifier, now: int): (r: Response)
    ensures r.cookie == KeepCookies && r.body.AuthState? && r.body.authMessage.None?
    ensures r.body.isAuthenticated <==> Authenticated(token, key, verify, now)
    ensures NoToken(token) ==> r == Response(DefaultStatus, AuthState(false, None, None), KeepCookies)
    ensures !NoToken(token) && verify(token.value, key, now).Err? ==>
              r == Response(401, AuthState(false, None, Some(verify(token.value, key, now).error)), KeepCookies)
    ensures Authenticated(token, key, verify, now) ==> r.status == 200
  {
    if NoToken(token) then Response(DefaultStatus, AuthState(false, None, None), KeepCookies)
    else
      match verify(token.value, key, now)
      case Ok(_) => Response(200, AuthState(true, None, None), KeepCookies)
      case Err(reason) => Response(401, AuthState(false, None, Some(reason)), KeepCookies)
  }

  /**
   * The status probe and the gate agree on who is signed in, but answer a bad token
   * differently: the probe with 401 and the reason, the gate with 403 and no reason.
   */
  lemma StatusAndGateAgree(token: Option<Token>, key: Key, verify: Verifier, now: int)
    ensures CheckAuthStatus(token, key, verify, now).body.isAuthenticated <==>
            Decide(token, key, verify, now).Admit?
    ensures Decide(token, key, verify, now).Reject403? ==>
              && CheckAuthStatus(token, key, verify, now).status == 401
              && GateResponse(Decide(token, key, verify, now)).value.status == 403
  {
  }

  /** After the browser applies the logout response, neither the probe nor the gate sees a session. */
  lemma LogoutEndsBrowserSession(jar: CookieJar, key: Key, verify: Verifier, now: int)
    ensures var token := JwtCookie(ApplyCookie(jar, Logout().cookie));
            && !CheckAuthStatus(token, key, verify, now).body.isAuthenticated
            && Decide(token, key, verify, now) == Reject401
  {
  }

  /**
   * Logout revokes nothing on the server: a session token copied before logout is still
   * admitted, with its signed claims, at every moment before its one-hour expiry, although
   * the browser that logged out no longer holds it.
   */
  lemma LogoutDoesNotRevoke(users: seq<User>, key: Key, o: Oracles, body: LoginBody,
                            loginAt: int, jar: CookieJar, now: int)
    requires CodecSound(o)
    requires Login(users, key, o, body, loginAt).status == 200
    requires now < loginAt + SessionTtlSeconds
    ensures var token := Login(users, key, o, body, loginAt).cookie.value;
            var after := ApplyCookie(ApplyCookie(jar, Login(users, key, o, body, loginAt).cookie), Logout().cookie);
            && JwtCookie(after).None?
            && Decide(Some(token), key, o.verify, now) ==
               Admit(Payload(Claims(FindByEmail(users, body.email).value.id, body.email),
                             loginAt, loginAt + SessionTtlSeconds))
  {
  }
}
