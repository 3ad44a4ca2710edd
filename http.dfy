/**
 * What a handler writes to Express's response object: a status, a JSON body and at most
 * one cookie operation, plus the browser's treatment of those cookies.
 */
module Http {
  import opened Common
  import opened UserModel
  import opened Crypto
  import opened AuthValidation

  /** The status Express sends when a handler calls `res.json` without `res.status`. */
  const DefaultStatus: nat := 200

  datatype CookieOptions = CookieOptions(httpOnly: bool, secure: bool, sameSite: string, maxAgeMs: nat)

  datatype CookieOp =
    | KeepCookies
    | SetCookie(name: string, value: string, options: CookieOptions)
    | ClearCookie(name: string)

  /** The JSON bodies the core sends, one constructor per shape. */
  datatype Body =
    | Message(message: string)
    | ValidationErrors(errors: seq<Field>)
    | Registered(message: string, user: User)
    | CredentialsError(error: string)
    | ServerError(message: string)    // `{ message, error: error.message }`; the text is not modelled
    | AuthState(isAuthenticated: bool, authMessage: Option<string>, failure: Option<Reason>)  // `{ isAuthenticated, message?, error? }`
    | Uploaded(message: string, imageUrl: string)

  datatype Response = Response(status: nat, body: Body, cookie: CookieOp)

  /** The cookies a browser holds for the site, by name. */
  type CookieJar = map<string, string>

  /** How a browser applies a response's cookie operation to its jar. */
  function ApplyCookie(jar: CookieJar, op: CookieOp): (jar': CookieJar)
    ensures op.SetCookie? ==> op.name in jar' && jar'[op.name] == op.value
    ensures op.ClearCookie? ==> op.name !in jar'
    ensures forall n :: n in jar && !(op.SetCookie? && op.name == n) && !(op.ClearCookie? && op.name == n)
                        ==> n in jar' && jar'[n] == jar[n]
  {
    match op
    case KeepCookies => jar
    case SetCookie(name, value, _) => jar[name := value]
    case ClearCookie(name) => jar - {name}
  }

  /** A cookie set at `setAt` with Max-Age is still sent at `now` (both in seconds). */
  predicate CookieLive(options: CookieOptions, setAt: int, now: int) {
    now < setAt + options.maxAgeMs / 1000
  }
}
