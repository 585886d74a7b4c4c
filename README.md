# ip_detector registration and login core, in Dafny

This project models the decision layer of a small Go registration and login service.
The service enriches each new user with a country looked up from their IP address, stores
users behind a repository interface, and issues bearer tokens. Only `GET /users` and
`GET /users/{id}` require a token. The model covers five parts:

- **The user record and its JSON encoding** (`Model`, `user.dfy`). `model.User` is a
  datatype. The encoding follows the struct tags: `id` and `country` are omitted when
  empty, `name`, `email` and `ip` are always present, and `PasswordHash` (tag `"-"`) is
  never emitted or read back. A `*model.User` is the class `UserRef`, whose value the
  service updates in place.
- **The ports** (`GeoIP`, `MockRepository`). Dafny traits are not used, so each port is a
  concrete class.
  - `GeoIPService` answers through an arbitrary fixed function: a country or an error.
    A ghost log records every IP it was asked about. The named constructor `Stub` is the
    tests' `geoIPMock`.
  - `UserRepository` is the tests' `mockRepo`: a map keyed by email. `GetByID` and
    `GetAll` loop over it, in an unspecified order, as Go's map iteration does.
  - A constant `saveFault` function stands for the Save failures a real store reports.
    It sees the users already stored and the user to save, so a refusal can depend on
    the store's contents, such as an email that is already taken. `NewMockRepo` sets it
    to "never fails". A ghost log records every Save call.
- **The service** (`Service`). `UserService.CreateUser` is a method that changes the user
  and the ports in place. It is proved against the function `Create`, which states what
  happens in order: the empty-IP refusal, the single lookup, the single Save of the
  enriched user, and the error each failure path returns. `GetAllUsers`, `GetUserByID`,
  `GetUserByEmail` and `GenerateJWT` are functions that pass their collaborator's Go
  `(value, error)` pair through.
- **The handlers** (`Handler`, `Http`). `RegisterUser` is a method: it builds the user and
  has the service change it in place. `Login`, `GetUsers` and `GetUserByID` are functions
  from the outcomes of their checks and collaborators to an HTTP status and body.
  - Library checks are inputs: JSON decoding, the validator, `net.ParseIP` and
    `mail.ParseAddress`.
  - bcrypt hashing and comparison are function parameters, and so is the token issuer.
  - `Login` also returns the calls it made: the lookup, the password comparison and the
    token issue.
  - An unknown email and a wrong password get the same response.
- **The Bearer middleware and the protected routes** (`Middleware`, `Router`). The
  middleware checks the `Authorization` header for empty, then for the exact,
  case-sensitive prefix `"Bearer "` (the Bearer scheme of section 2.1 of RFC 6750). It
  strips that prefix once and passes the rest to an opaque `verify(token, secret)`. On
  success it adds the verified email to the request context under the middleware's own
  key type, `contextKey("user_email")`. A plain string key `"user_email"` is a different
  key, as in Go.
  - `RouterTest` restates the three router tests as methods. Each states what it needs
    from bcrypt and the token library.

Facts about the Go code that the model keeps:

- The password is hashed in the handler before `CreateUser` runs, so hashing comes before
  enrichment.
- The 500 response of `RegisterUser` carries the service's error text, for example
  `failed to save user: ...`.
- The 401 for a bad token ends with the verifier's own message (`Invalid token: ...`).
  A generic message is not used.
- `mockRepo.Save` replaces an earlier user with the same email. It does not refuse the
  duplicate.

## Model

| member | source | states |
|---|---|---|
| `Model.EncodeUser` | internal/domain/model/user.go:3-10 | the encoding is a JSON object of the three always-present members plus one for each non-empty omitempty field |
| `Model.EncodeUsers` | internal/adapter/http/handler/user_handler.go:196-198 | a list of users encodes as an array of their encodings in order; the empty (nil) list encodes as `null` |
| `Model.EncodedKeys` | internal/domain/model/user.go:4-8 | `id` is present iff the ID is non-empty, and likewise `country`; `name`, `email`, `ip` are always present; no other key, none twice |
| `Model.EncodeIgnoresHash` | internal/domain/model/user.go:9 | the encoding is the same whatever the password hash, so the hash is never emitted |
| `Model.DecodeMembers` | internal/domain/model/user.go:4-9 | decoding members in order never touches the password hash |
| `Model.DecodeUser` | internal/domain/model/user.go:3-10 | a decoded user always has an empty password hash; `null` gives the zero user; a non-object is an error |
| `Model.RoundTrip` | internal/domain/model/user.go:4-9 | decoding an encoded user restores ID, name, email, IP and country, with an empty password hash |
| `Http.HttpError` | internal/adapter/http/handler/user_handler.go:63 | an error response has the given status and the plain-text body `message + "\n"` |
| `GeoIP.GeoIPService.GetCountryByIP` | internal/domain/port/geoip_service.go:3-5 | each call is logged; the result is the port's country with no error, or "" with the port's error |
| `GeoIP.GeoIPService.constructor` | internal/domain/port/geoip_service.go:3-5 | a GeoIP port with arbitrary fixed answers, standing for any implementation such as the ip-api.com client, so that the service's contracts hold for every port |
| `GeoIP.GeoIPService.Stub` | internal/adapter/http/router/router_test.go:49-51 | the test stub answers "UA" for every IP |
| `MockRepository.UserRepository.NewMockRepo` | internal/adapter/http/router/router_test.go:22 | a new mock store is empty, keyed by email, and never fails a save |
| `MockRepository.UserRepository.WithSaveFaults` | internal/domain/port/user_repository.go:9 | a store whose saves fail exactly as the given fault function says of the stored users and the user to save; it stands for any repository, such as the Postgres one, so that the service's contracts hold for every port |
| `MockRepository.UserRepository.Save` | internal/adapter/http/router/router_test.go:24-27 | each call is logged; the error is the fault function's answer for the contents before the call; on success the user is stored under its email, replacing any earlier one, and every other entry is unchanged; the email-keying invariant is kept |
| `MockRepository.UserRepository.GetByEmail` | internal/adapter/http/router/router_test.go:28-30 | never an error; returns the stored user iff one is stored under the email, and that user has this email |
| `MockRepository.UserRepository.GetByID` | internal/adapter/http/router/router_test.go:31-38 | never an error; returns a stored user with the ID, or nil exactly when no stored user has it |
| `MockRepository.UserRepository.GetAll` | internal/adapter/http/router/router_test.go:39-45 | never an error; returns every stored user exactly once, and nothing else |
| `Service.Create` | internal/app/service/user_service.go:32-55 | empty IP: error, no lookup, no save; failed lookup: error, user unchanged, no save; otherwise only the country is set, then one save of that user; a save error is returned with the country still set; success iff lookup and save both succeed |
| `Service.UserService.constructor` | internal/app/service/user_service.go:24-30 | the service holds the given repository, GeoIP port and configuration |
| `Service.UserService.CreateUser` | internal/app/service/user_service.go:32-55 | the user, error, lookup log, save log and store contents afterwards are exactly those `Create` describes; the store changes only on success |
| `Service.GetAllUsers` | internal/app/service/user_service.go:57-69 | the repository's list unchanged, or nil with the repository's error |
| `Service.GetUserByID` | internal/app/service/user_service.go:71-84 | the repository's answer for the ID; an absent user with no error passes through as no error; on error the user is nil |
| `Service.GetUserByEmail` | internal/app/service/user_service.go:86-99 | the repository's answer for the email; an absent user with no error passes through as no error; on error the user is nil |
| `Service.GenerateJWT` | internal/app/service/user_service.go:101-111 | the issuer is asked with the configured secret and expiration; its token is returned, or "" with a wrapped error |
| `Handler.NewUser` | internal/adapter/http/handler/user_handler.go:93-98 | the user handed to the service has name, email and IP copied from the input and the hasher's output as the hash |
| `Handler.Rejection` | internal/adapter/http/handler/user_handler.go:61-91 | the JSON, validator, IP and email checks run in that order, and the first failure gives a 400 with its message; a hashing failure after them gives a 500; none iff all pass |
| `Handler.RegisterUser` | internal/adapter/http/handler/user_handler.go:50-109 | a rejected request leaves the repository and GeoIP port untouched; otherwise the service runs on the built user, and the response is 500 with its error or 201 with the user as enriched |
| `Handler.Login` | internal/adapter/http/handler/user_handler.go:123-173 | 400 before any call on bad input; the lookup comes first; a lookup error gives 500 with no comparison or token; a token is issued only after a successful comparison against the stored hash, for the stored email; every 401 is the same response; an unknown email gives that 401 after the lookup alone; a wrong password gives it after exactly the lookup and one comparison; an issuance failure after a successful comparison gives 500 "failed to generate JWT" after the lookup, the comparison and the issue; 200 with the token under "token" iff every step succeeded, after exactly the lookup, the comparison and the issue |
| `Handler.CredentialFailuresIndistinguishable` | internal/adapter/http/handler/user_handler.go:151-161 | an unknown email and a wrong password yield the identical 401 "invalid credentials" response |
| `Handler.GetUsers` | internal/adapter/http/handler/user_handler.go:185-199 | 500 on a service error, else 200 with exactly the service's list encoded |
| `Handler.GetUserByID` | internal/adapter/http/handler/user_handler.go:212-232 | 500 on a service error, 404 when absent, 200 with the user iff the service found one |
| `Middleware.HasPrefix` | internal/adapter/http/middleware/jwt.go:28 | the header starts with the prefix character for character, and is then the prefix followed by the rest |
| `Middleware.TrimPrefix` | internal/adapter/http/middleware/jwt.go:34 | exactly one leading prefix is removed when present; otherwise the string is unchanged |
| `Middleware.JWTMiddleware` | internal/adapter/http/middleware/jwt.go:16-45 | empty header or no exact "Bearer " prefix: 401 with no verification and no forwarding; the verifier sees the header minus one prefix; a verification failure gives 401; forwarded iff the token verifies, with the email under `user_email` |
| `Middleware.BearerTokenExtracted` | internal/adapter/http/middleware/jwt.go:28-35 | for a header "Bearer " + t, exactly t is verified |
| `Middleware.LowercaseSchemeRefused` | internal/adapter/http/middleware/jwt.go:28-32 | a header starting "bearer " is refused as malformed before verification |
| `Middleware.DecisionIgnoresContext` | internal/adapter/http/middleware/jwt.go:16-18 | what is verified and whether the request is forwarded depend only on the header and the secret; other context values are kept |
| `Middleware.StringKeyKept` | internal/adapter/http/middleware/jwt.go:12-14 | a value under the plain string key "user_email" survives forwarding, because the middleware's key has its own type |
| `Router.ProtectedGetUsers` | internal/adapter/http/router/router.go:20-22 | /users answers the middleware's 401 unless the token verifies, then the handler's response; 200 iff the token verifies and the repository succeeds |
| `Router.ProtectedGetUserByID` | internal/adapter/http/router/router.go:20-23 | /users/{id} answers the middleware's own 401 unless the token verifies, then the handler's response; 404 iff the token verifies and the repository finds no such user |
| `RouterTest.RegisterOK` | internal/adapter/http/router/router_test.go:63-75 | with the "UA" stub, a valid registration answers 201 with the enriched user and no hash, and one user is stored |
| `RouterTest.RegisterValidationFail` | internal/adapter/http/router/router_test.go:77-89 | a registration the validator refuses answers 400 and stores nothing |
| `RouterTest.LoginAndProtected` | internal/adapter/http/router/router_test.go:91-131 | register Bob (201), log in (200, non-empty token), GET /users without a header (401), with `Bearer <token>` (200, an array holding Bob with country "UA") |

## Left out

- Token signing and verification (internal/auth/token.go) are opaque function parameters. HS256 per section 3.2 of RFC 7518, the claims of section 4.1 of RFC 7519, `time.Now` and `time.ParseDuration` are not modelled.
- bcrypt hashing and comparison are opaque function parameters. Hashing is randomized in the source; here it is an arbitrary fixed function of the password.
- JSON request decoding, the go-playground validator, `net.ParseIP` and `mail.ParseAddress` are boolean or message inputs. The model does not relate them to the request's text. The validator's `required,ip` tags make an empty IP unreachable from `RegisterUser`, but the model does not derive that.
- The ip-api.com client (internal/adapter/external/geoip/ipapi.go) is replaced by the GeoIP port's answer function.
- The Postgres repository is not part of this model. Its read errors reach the service and handler functions as arbitrary `(value, error)` pairs. Its Save errors are the `saveFault` function of the stored users and the user to save. The ID that `RETURNING id` assigns is not modelled; `Save` never sets an ID, as in the mock.
- MockRepository.UserRepository.Save stores a copy of the user's value, not the `*model.User` pointer the mock keeps. Nothing changes a user after it is saved, so the aliasing is not observable in the modelled flows.
- Router.ProtectedGetUsers takes the repository's answer as an input even when the middleware refuses the request. On that path the answer is ignored; the model does not record that the repository is not called.
- Service.GetUserByID and Service.GetUserByEmail take the repository's answer as a function of the ID or email. `Login` takes the service's answer for the submitted email as a value, and its call list records when it is asked.
- Response headers are not modelled: `Content-Type`, `X-Content-Type-Options`, and the content type sniffed for the 201 body. Only the status and body are.
- Text serialization of JSON is not modelled: string escaping and the newline `json.Encoder` appends. Bodies are JSON values. Go encodes a nil slice as `null`, and both repositories return a nil slice when there is no user, so `EncodeUsers` maps an empty list to `null`.
- Model.DecodeUser matches keys exactly. Go's decoder also accepts keys that differ only in case.
- Model.DecodeUser stops at the first member of the wrong type. Go's decoder keeps going and reports the first such error at the end. The result differs only in which partial user goes with the error, and the model drops that user.
- Logging, `context` cancellation and request concurrency are left out. The service holds no shared in-process state.
- Bootstrap and configuration are left out: cmd/httpserver/main.go, internal/config/config.go, and the mux wiring apart from which routes are protected.
