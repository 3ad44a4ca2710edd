# Blog API authentication core, in Dafny

A model of the authentication and session logic of a small Express blog backend, with
proofs of its security properties:

- the authorization gate `authenticateToken`, which admits a request only with a `jwt`
  cookie that verifies, and then sets `req.user`;
- the account handlers `registerUser`, `loginUser`, `logoutUser` and `checkAuthStatus`,
  over a user collection with a unique email index;
- the registration validator, and the URL builder of the image-upload handler.

bcrypt and jsonwebtoken appear only as uninterpreted functions, bundled in `Crypto.Oracles`.
The facts the code relies on about them are predicates that lemmas take as hypotheses:
`HashCompareSound` (compare accepts a password against its own hash),
`CompareRejectsMissingHash` (compare throws when the stored hash is undefined) and
`CodecSound` (a signed token verifies under the same key until its `exp` claim, as in
section 4.1.4 of RFC 7519). Randomness and time are parameters: bcrypt's salt, and the clock in seconds.
Mongo's ObjectId is a counter in the store. `ADMIN_USERNAME` and `JWT_SECRET` are a
`Config` value. Every response is a record of status, JSON body shape and cookie operation.

Files: `common.dfy` (Option, Result), `user_model.dfy` (user record, collection, `findOne`,
`save`), `crypto.dfy` (oracles), `auth_validation.dfy`, `http.dfy` (responses, browser cookie
jar), `auth_middleware.dfy`, `user_controller.dfy`, `upload_controller.dfy`, `routes.dfy`.

Facts about the code that the model keeps as they are:

- Nothing in the code limits the store to one account. Any number of users may register
  under the admin username, as long as their emails differ.
- A duplicate email makes `save` throw, and the handler answers 500.
- The 201 registration response contains the stored record, including `passwordHash`.
- `checkAuthStatus` answers a bad token with 401 and echoes jsonwebtoken's error message.
  The gate answers 403 with one fixed message. `UserController.StatusAndGateAgree` states
  the difference.

## Model

| member | source | states |
|---|---|---|
| `AuthMiddleware.GeneratePasswordHash` | src/middleware/authMiddleware.js:6-9 | the hash is bcrypt's output for the password at the fixed cost 10, returned unchanged |
| `AuthMiddleware.GeneratedHashVerifies` | src/middleware/authMiddleware.js:6-9 | if bcrypt's compare accepts its own hashes, the stored hash verifies against the original password |
| `AuthMiddleware.JwtCookie` | src/middleware/authMiddleware.js:12 | the token is present iff the request has a `jwt` cookie, and it is that cookie's value |
| `AuthMiddleware.Decide` | src/middleware/authMiddleware.js:11-26 | exactly one of three outcomes: 401 iff the cookie is missing or empty; 403 iff a token is present and fails verification; admit iff the request is authenticated, with `req.user` equal to the decoded payload |
| `AuthMiddleware.GateResponse` | src/middleware/authMiddleware.js:14-21 | the gate sends 401 "Access Denied: No token provided" or 403 "Invalid or expired token" on rejection, and sends nothing iff it admits |
| `AuthMiddleware.RejectionHidesReason` | src/middleware/authMiddleware.js:18-21 | the 403 answer is identical whatever the reason verification failed (malformed, bad signature, expired) |
| `AuthMiddleware.AuthenticateToken` | src/middleware/authMiddleware.js:11-26 | the response sent follows the decision; `next` is called once on admission and never otherwise; `req.user` is set only on admission, and nothing else on the request changes |
| `UserModel.FindByEmail` | src/controllers/userController.js:38 | the lookup returns a stored user with the requested email, and returns nothing iff no stored user has it |
| `UserModel.FindByEmailUnique` | src/models/User.js:12 | with unique emails, looking up a stored user's email returns exactly that user |
| `UserModel.AtMostOneWithEmail` | src/models/User.js:12 | with unique emails, two stored users with the same email are the same user |
| `UserModel.Insert` | src/models/User.js:3-16 | save fails with a required-path error iff username or email is empty; it fails as a duplicate iff the email is already stored; otherwise the new record has a fresh id, the given fields, and is not already stored |
| `UserModel.InsertPreservesInvariant` | src/models/User.js:5-14 | a successful save keeps emails unique, ids unique, and username and email present on every stored user |
| `UserModel.UserStore.FindOne` | src/controllers/userController.js:38 | `findOne` returns the lookup result, and that result is the only stored user with that email |
| `UserModel.UserStore.Save` | src/controllers/userController.js:24 | `save` appends exactly the inserted record and advances the id counter by one on success; on failure, such as a duplicate email, the collection and the counter are unchanged; the collection invariant holds afterwards |
| `AuthValidation.RegistrationErrors` | src/validations/auth.js:3-7 | a field error is reported iff its rule fails: username or password shorter than 5 characters (5 itself passes, no upper bound), or an email that fails the format check; no errors iff all three rules hold; errors come in rule order without repeats; no rule looks at the admin username |
| `UserController.Register` | src/controllers/userController.js:9-33 | validation errors give 400 with the error list before anything else; a username other than the configured admin gives 400 "Can't register this user", and an unset admin refuses everyone; 201 iff all checks pass and the store accepts the email; the stored user has the admin name, the email and the bcrypt hash of the password; a valid admin registration that the store rejects (email taken or empty) gives 500 |
| `UserController.RegisterUser` | src/controllers/userController.js:9-33 | the handler answers as `Register` does; the store changes only on a 201 answer, by appending the returned user and advancing the id counter, and keeps its invariant |
| `UserController.RegisterKeepsOnlyAdmins` | src/controllers/userController.js:17-24 | if every stored user has the admin name, registration keeps it that way |
| `UserController.Login` | src/controllers/userController.js:35-63 | 200 iff the email is stored, the password matches and signing succeeds; 401 iff the email is unknown or the password does not match, and it is the same "Invalid credentials" response with no cookie in both cases; on 200 the password matched, the token was signed over `{ _id, email }` for one hour, and it is set as an httpOnly, secure, SameSite Lax `jwt` cookie with max-age 3 600 000 ms; the body is `{ isAuthenticated: true, message }`; a bcrypt or signing failure gives 500 with no cookie |
| `UserController.LoginUser` | src/controllers/userController.js:35-63 | the handler answers as `Login` does over the current collection, and it does not change the store |
| `UserController.HashlessUserCannotLogIn` | src/controllers/userController.js:40-61 | assuming bcrypt throws on an undefined hash, a stored user without `passwordHash` always gets the 500 "Login failed" answer, never 200 and never a cookie |
| `UserController.LoginFailuresAreUniform` | src/controllers/userController.js:38-42 | an unknown email and a wrong password produce identical responses |
| `UserController.LoginBodyIndependentOfToken` | src/controllers/userController.js:44-56 | the status and body of a login do not depend on which token was signed, so the token never appears in the JSON body |
| `UserController.SessionCookieMatchesTokenLifetime` | src/controllers/userController.js:44-51 | assuming sound signing, at every moment after a login the browser still sends the cookie iff the gate admits its token; the gate then yields the signed claims, and otherwise answers 403 |
| `UserController.RegisterThenLogin` | src/controllers/userController.js:23-44 | assuming bcrypt accepts its own hashes and signing succeeds, a user who registered can then log in with the same email and password |
| `UserController.Logout` | src/controllers/userController.js:65-70 | logout always clears the `jwt` cookie and reports `isAuthenticated: false` with the default status, whatever the request holds |
| `UserController.LogoutEndsBrowserSession` | src/controllers/userController.js:65-70 | once the browser applies the logout response, the status probe reports signed-out and the gate answers 401 |
| `UserController.LogoutDoesNotRevoke` | src/controllers/userController.js:65-70 | assuming sound signing, after a login and a later logout the browser holds no `jwt` cookie, yet the token issued at login is still admitted with its signed claims at every moment before its one-hour expiry |
| `UserController.CheckAuthStatus` | src/controllers/userController.js:72-85 | it reports authenticated iff the request's token verifies; with no token it reports false with the default status; a failing token gives 401 with false and the failure reason; a verifying token gives 200 |
| `UserController.StatusAndGateAgree` | src/controllers/userController.js:72-85 | the status probe reports true iff the gate would admit; a token the gate rejects with 403 makes the probe answer 401 |
| `UploadController.ImageUrl` | src/controllers/uploadController.js:7 | the URL is the prefix `protocol://host/uploads/` followed by exactly the filename, so the filename is the suffix after that prefix |
| `UploadController.ImageUrlInjective` | src/controllers/uploadController.js:7 | for the same protocol and host, equal URLs mean equal filenames |
| `UploadController.HandleImageUpload` | src/controllers/uploadController.js:1-19 | no file gives 400 "No image uploaded" and no URL; a file gives 201 "Upload successful" with a URL of the origin's upload prefix followed by the stored filename |
| `UploadController.UploadDependsOnlyOnOriginAndFilename` | src/controllers/uploadController.js:7 | two uploads with the same protocol, host and stored filename get the same response; the original name, type and size of the file do not matter |
| `Routes.Dispatch` | src/routes/postRoutes.js:11-12 | on the guarded endpoints (updating and creating posts here, and uploading images in src/routes/uploadRoutes.js:5), the handler runs iff the request is authenticated, and it sees the verified payload as `req.user`; otherwise the answer is the gate's own response: 401 "Access Denied: No token provided" without a token, 403 "Invalid or expired token" when verification fails; other endpoints run their handler with the request unchanged |

## Left out

- bcrypt and jsonwebtoken internals: hashing, salts, HMAC, base64url and the token format are uninterpreted functions. Constant-time comparison cannot be stated in this model.
- What the code takes on trust about those libraries is stated as the hypotheses `HashCompareSound`, `CompareRejectsMissingHash` and `CodecSound`, never established.
- express-validator's `isEmail` is an uninterpreted predicate. Its error objects are reduced to the failing field; their message, value and location are not modelled.
- Lengths are counted in Unicode scalar values. validator.js's special counting of variation selectors is not modelled.
- Request bodies whose fields are JSON values other than strings, such as objects or numbers, are not modelled. A login body is two strings.
- cookie-parser's `j:` JSON cookies are not modelled. The `jwt` cookie is a string or absent.
- The text of caught exceptions in the 500 answers is not modelled. The oracles' error outcomes stand for the thrown exceptions.
- The payload of a verified token holds the signed claims plus `iat` and `exp`. Other registered claims are not modelled.
- The clock is in whole seconds. The cookie's millisecond max-age and the token's second-granular `exp` are compared at that resolution.
- When environment variables are loaded, relative to module initialisation, is not modelled. The signing key and admin name are fixed parameters.
- src/index.js (server bootstrap, CORS, multer storage, static files) is not part of this model.
- src/controllers/postController.js and src/models/Post.js (post CRUD delegated to Mongoose) are not part of this model.
- Express routing is not modelled. Only the fixed table of which endpoints run the gate first is kept, in `Routes`.
- UserModel.UserStore.FindOne: the lookup never fails. A store exception, such as a lost connection or a buffering timeout, which `loginUser` answers with 500, is not modelled, so `Login`'s 401 and 200 characterisations assume a reachable database.
- UserModel.UserStore.Save: the save fails only on a missing required path or a duplicate email. A store exception, which `registerUser` answers with 500, is not modelled, so `Register`'s 201 characterisation assumes a reachable database.
- Concurrency is not modelled. In particular, two simultaneous registrations are not, and the store's unique index is taken to be atomic.
