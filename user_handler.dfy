/**
 * handler.UserHandler: each handler is a fixed chain of early returns ending in an HTTP
 * status. The library checks it relies on (JSON decoding, struct validation, net.ParseIP,
 * mail.ParseAddress, bcrypt) appear as their outcomes.
 */
module Handler {
  import opened Wrappers
  import opened Model
  import opened Http
  import opened Service

  /** The decoded body of POST /register. */
  datatype RegisterRequest = RegisterRequest(name: string, email: string, ip: string, password: string)

  /**
   * The outcomes of the input checks RegisterUser runs, in its order: JSON decoding, the
   * validator (its error message, if any), net.ParseIP and mail.ParseAddress.
   */
  datatype RegisterChecks = RegisterChecks(decoded: bool, invalid: Option<string>, ipParses: bool, emailParses: bool)

  /** The decoded body of POST /login. */
  datatype LoginRequest = LoginRequest(email: string, password: string)

  /** A collaborator call made by Login. */
  datatype Call = LookupUser(email: string) | ComparePassword(hash: string, password: string) | IssueToken(email: string)

  /** A handler's response with the collaborator calls it made, in order. */
  datatype Outcome = Outcome(response: Response, calls: seq<Call>)

  /** The one response for both an unknown email and a wrong password. */
  const InvalidCredentials := HttpError("invalid credentials", StatusUnauthorized)

  /** The user RegisterUser hands to CreateUser: the input's fields verbatim and the password's hash. */
  function NewUser(req: RegisterRequest, hash: string): (u: User)
    ensures u.name == req.name && u.email == req.email && u.ip == req.ip && u.passwordHash == hash
    ensures u.id == "" && u.country == ""
  {
    User("", req.name, req.email, req.ip, "", hash)
  }

  /**
   * The part of RegisterUser before CreateUser: the first failing check decides the
   * response; None when every check passed and the password was hashed.
   */
  function Rejection(checks: RegisterChecks, req: RegisterRequest, hash: string -> Result<string>): (r: Option<Response>)
    ensures !checks.decoded ==> r == Some(HttpError("invalid JSON", StatusBadRequest))
    ensures checks.decoded && checks.invalid.Some? ==> r == Some(HttpError(checks.invalid.value, StatusBadRequest))
    ensures checks.decoded && checks.invalid.None? && !checks.ipParses ==>
      r == Some(HttpError("invalid IP address", StatusBadRequest))
    ensures checks.decoded && checks.invalid.None? && checks.ipParses && !checks.emailParses ==>
      r == Some(HttpError("invalid email address", StatusBadRequest))
    ensures r.Some? && r.value.status == StatusBadRequest <==>
      !(checks.decoded && checks.invalid.None? && checks.ipParses && checks.emailParses)
    ensures r.Some? && r.value.status == StatusInternalServerError <==>
      checks.decoded && checks.invalid.None? && checks.ipParses && checks.emailParses && hash(req.password).Err?
    ensures r.Some? && r.value.status == StatusInternalServerError ==> r.value == HttpError("failed to hash password", StatusInternalServerError)
    ensures r.None? <==> checks.decoded && checks.invalid.None? && checks.ipParses && checks.emailParses && hash(req.password).Ok?
  {
    if !checks.decoded then Some(HttpError("invalid JSON", StatusBadRequest))
    else if checks.invalid.Some? then Some(HttpError(checks.invalid.value, StatusBadRequest))
    else if !checks.ipParses then Some(HttpError("invalid IP address", StatusBadRequest))
    else if !checks.emailParses then Some(HttpError("invalid email address", StatusBadRequest))
    else if hash(req.password).Err? then Some(HttpError("failed to hash password", StatusInternalServerError))
    else None
  }

  /**
   * RegisterUser: runs the checks, builds the user, has the service enrich and store it in
   * place, and answers 201 with the user as it was left, or 500 with the service's error.
   */
  method RegisterUser(svc: UserService, checks: RegisterChecks, req: RegisterRequest, hash: string -> Result<string>)
    returns (resp: Response)
    requires svc.repo.Valid()
    modifies svc.repo, svc.geoIP
    ensures svc.repo.Valid()
    ensures Rejection(checks, req, hash).Some? ==>
      resp == Rejection(checks, req, hash).value && unchanged(svc.repo, svc.geoIP)
    ensures Rejection(checks, req, hash).None? ==>
      var stored := old(svc.repo.users);
      var c := Create(NewUser(req, hash(req.password).value), svc.geoIP.answer, u => svc.repo.saveFault(stored, u));
      && resp == (if c.err.Some? then HttpError(c.err.value, StatusInternalServerError)
                  else Response(StatusCreated, JsonBody(EncodeUser(c.user))))
      && svc.geoIP.queries == old(svc.geoIP.queries) + c.lookedUp
      && svc.repo.saveCalls == old(svc.repo.saveCalls) + c.saved
      && svc.repo.users == (if c.err.None? then old(svc.repo.users)[c.user.email := c.user] else old(svc.repo.users))
  {
    var rejected := Rejection(checks, req, hash);
    if rejected.Some? {
      return rejected.value;
    }
    var user := new UserRef(NewUser(req, hash(req.password).value));
    var err := svc.CreateUser(user);
    if err.Some? {
      return HttpError(err.value, StatusInternalServerError);
    }
    return Response(StatusCreated, JsonBody(EncodeUser(user.val)));
  }

  /**
   * Login: looks the user up by email, compares the password with the stored hash and
   * issues a token for the stored user's email.
   */
  function Login(decoded: bool, invalid: Option<string>, req: LoginRequest, found: Fetched,
                 matches: (string, string) -> bool, generateJWT: string -> Issued): (o: Outcome)
    // Malformed or invalid input: 400 before any collaborator is called.
    ensures !decoded ==> o == Outcome(HttpError("invalid JSON", StatusBadRequest), [])
    ensures decoded && invalid.Some? ==> o == Outcome(HttpError(invalid.value, StatusBadRequest), [])
    // Otherwise the lookup comes first, for the submitted email.
    ensures decoded && invalid.None? ==> |o.calls| >= 1 && o.calls[0] == LookupUser(req.email)
    // A lookup error: 500, no comparison, no token.
    ensures decoded && invalid.None? && found.err.Some? ==>
      o == Outcome(HttpError("internal error", StatusInternalServerError), [LookupUser(req.email)])
    // A comparison only against the stored user's hash.
    ensures forall h, p :: ComparePassword(h, p) in o.calls ==>
      found.user.Some? && h == found.user.value.passwordHash && p == req.password
    // A token only after a successful comparison, and only for the stored user's email.
    ensures forall e :: IssueToken(e) in o.calls ==>
      found.err.None? && found.user.Some? && e == found.user.value.email
      && matches(found.user.value.passwordHash, req.password)
    // Every 401 is the same response.
    ensures o.response.status == StatusUnauthorized ==> o.response == InvalidCredentials
    ensures o.response.status == StatusUnauthorized <==>
      decoded && invalid.None? && found.err.None?
      && (found.user.None? || !matches(found.user.value.passwordHash, req.password))
    // 200 with the token under "token" exactly when every step succeeded.
    ensures o.response.status == StatusOK <==>
      decoded && invalid.None? && found.err.None? && found.user.Some?
      && matches(found.user.value.passwordHash, req.password)
      && generateJWT(found.user.value.email).err.None?
    ensures o.response.status == StatusOK ==>
      o.response.body == JsonBody(Obj([("token", Str(generateJWT(found.user.value.email).token))]))
    // A wrong password: 401 after exactly the lookup and one comparison.
    ensures (decoded && invalid.None? && found.err.None? && found.user.Some?
             && !matches(found.user.value.passwordHash, req.password)) ==>
      o == Outcome(InvalidCredentials, [LookupUser(req.email), ComparePassword(found.user.value.passwordHash, req.password)])
    // Issuance failure after a successful comparison: 500, after all three calls.
    ensures (decoded && invalid.None? && found.err.None? && found.user.Some?
             && matches(found.user.value.passwordHash, req.password)
             && generateJWT(found.user.value.email).err.Some?) ==>
      o == Outcome(HttpError("failed to generate JWT", StatusInternalServerError),
                   [LookupUser(req.email), ComparePassword(found.user.value.passwordHash, req.password),
                    IssueToken(found.user.value.email)])
    // An unknown email: 401 after the lookup alone.
    ensures decoded && invalid.None? && found.err.None? && found.user.None? ==>
      o == Outcome(InvalidCredentials, [LookupUser(req.email)])
    ensures o.response.status == StatusOK ==>
      o.calls == [LookupUser(req.email), ComparePassword(found.user.value.passwordHash, req.password),
                  IssueToken(found.user.value.email)]
  {
    if !decoded then Outcome(HttpError("invalid JSON", StatusBadRequest), [])
    else if invalid.Some? then Outcome(HttpError(invalid.value, StatusBadRequest), [])
    else if found.err.Some? then Outcome(HttpError("internal error", StatusInternalServerError), [LookupUser(req.email)])
    else if found.user.None? then Outcome(InvalidCredentials, [LookupUser(req.email)])
    else
      var u := found.user.value;
      var compared := [LookupUser(req.email), ComparePassword(u.passwordHash, req.password)];
      if !matches(u.passwordHash, req.password) then Outcome(InvalidCredentials, compared)
      else
        var issued := generateJWT(u.email);
        var calls := compared + [IssueToken(u.email)];
        if issued.err.Some? then Outcome(HttpError("failed to generate JWT", StatusInternalServerError), calls)
        else Outcome(Response(StatusOK, JsonBody(Obj([("token", Str(issued.token))]))), calls)
  }

  /** An unknown email and a wrong password for a known one get byte-identical responses. */
  lemma CredentialFailuresIndistinguishable(req: LoginRequest, stored: User,
                                            matches: (string, string) -> bool, generateJWT: string -> Issued)
    requires !matches(stored.passwordHash, req.password)
    ensures Login(true, None, req, Fetched(None, None), matches, generateJWT).response
         == Login(true, None, req, Fetched(Some(stored), None), matches, generateJWT).response
    ensures Login(true, None, req, Fetched(None, None), matches, generateJWT).response == InvalidCredentials
  {
  }

  /** GetUsers: 500 on a service error, else 200 with exactly the service's list. */
  function GetUsers(listed: Listing): (r: Response)
    ensures listed.err.Some? ==> r == HttpError("failed to fetch users", StatusInternalServerError)
    ensures listed.err.None? ==> r.status == StatusOK && r.body == JsonBody(EncodeUsers(listed.users))
  {
    if listed.err.Some? then HttpError("failed to fetch users", StatusInternalServerError)
    else Response(StatusOK, JsonBody(EncodeUsers(listed.users)))
  }

  /** GetUserByID: 500 on a service error, 404 when there is no such user, else 200 with the user. */
  function GetUserByID(found: Fetched): (r: Response)
    ensures found.err.Some? ==> r == HttpError("failed to fetch user", StatusInternalServerError)
    ensures found.err.None? && found.user.None? ==> r == HttpError("user not found", StatusNotFound)
    ensures r.status == StatusOK <==> found.err.None? && found.user.Some?
    ensures r.status == StatusOK ==> r.body == JsonBody(EncodeUser(found.user.value))
  {
    if found.err.Some? then HttpError("failed to fetch user", StatusInternalServerError)
    else if found.user.None? then HttpError("user not found", StatusNotFound)
    else Response(StatusOK, JsonBody(EncodeUser(found.user.value)))
  }
}
