/**
 * The router tests as verified scenarios: a fresh mockRepo, the GeoIP stub answering "UA",
 * and the test configuration. bcrypt and the token library are parameters; each scenario
 * states only what it needs of them.
 */
module RouterTest {
  import opened Wrappers
  import opened Model
  import opened Http
  import opened GeoIP
  import opened MockRepository
  import opened Service
  import opened Handler
  import opened Middleware
  import opened Router

  const TestSecret := "supersecretkey"
  const TestConfig := Config(TestSecret, "24h")

  /** Checks that all pass, as the validator and parsers answer for a well-formed registration. */
  const AllChecksPass := RegisterChecks(true, None, true, true)

  /** TestRegisterOK: a valid registration answers 201 with the user enriched with "UA" and no hash. */
  method RegisterOK(hash: string -> Result<string>) returns (resp: Response, stored: nat)
    requires hash("secret123").Ok?
    ensures resp.status == StatusCreated
    ensures resp.body == JsonBody(EncodeUser(User("", "Alice", "alice@example.com", "8.8.8.8", "UA", "")))
    ensures stored == 1
  {
    var repo := new UserRepository.NewMockRepo();
    var geo := new GeoIPService.Stub("UA");
    var svc := new UserService(repo, geo, TestConfig);
    var req := RegisterRequest("Alice", "alice@example.com", "8.8.8.8", "secret123");
    resp := RegisterUser(svc, AllChecksPass, req, hash);
    EncodeIgnoresHash(User("", "Alice", "alice@example.com", "8.8.8.8", "UA", ""), hash("secret123").value);
    stored := |repo.users|;
  }

  /** TestRegisterValidationFail: a body the validator refuses answers 400 and stores nothing. */
  method RegisterValidationFail(hash: string -> Result<string>, message: string) returns (resp: Response, stored: nat)
    ensures resp == HttpError(message, StatusBadRequest)
    ensures stored == 0
  {
    var repo := new UserRepository.NewMockRepo();
    var geo := new GeoIPService.Stub("UA");
    var svc := new UserService(repo, geo, TestConfig);
    var req := RegisterRequest("", "bad", "not_ip", "1");
    resp := RegisterUser(svc, RegisterChecks(true, Some(message), false, false), req, hash);
    stored := |repo.users|;
  }

  /**
   * TestLoginAndProtected: register Bob, log in with the same credentials, then GET /users
   * without and with the token. bcrypt must accept the hash of "hunter2" for "hunter2", and
   * the token issued for Bob must be non-empty and verify back to his email.
   */
  method LoginAndProtected(hash: string -> Result<string>, matches: (string, string) -> bool,
                           issue: (string, string, string) -> Result<string>,
                           verify: (string, string) -> Result<string>)
    returns (registered: Response, loggedIn: Response, token: string, withoutToken: Response, withToken: Response)
    requires hash("hunter2").Ok? && matches(hash("hunter2").value, "hunter2")
    requires issue("bob@example.com", TestSecret, "24h").Ok?
    requires issue("bob@example.com", TestSecret, "24h").value != ""
    requires verify(issue("bob@example.com", TestSecret, "24h").value, TestSecret) == Ok("bob@example.com")
    ensures registered.status == StatusCreated
    ensures loggedIn.status == StatusOK && token != ""
    ensures loggedIn.body == JsonBody(Obj([("token", Str(token))]))
    ensures withoutToken.status == StatusUnauthorized
    ensures withToken.status == StatusOK
    ensures withToken.body == JsonBody(Arr([EncodeUser(User("", "Bob", "bob@example.com", "1.1.1.1", "UA", ""))]))
  {
    var repo := new UserRepository.NewMockRepo();
    var geo := new GeoIPService.Stub("UA");
    var svc := new UserService(repo, geo, TestConfig);
    var bob := User("", "Bob", "bob@example.com", "1.1.1.1", "UA", hash("hunter2").value);

    registered := RegisterUser(svc, AllChecksPass, RegisterRequest("Bob", "bob@example.com", "1.1.1.1", "hunter2"), hash);
    assert repo.users == map["bob@example.com" := bob];

    var found, lookupErr := repo.GetByEmail("bob@example.com");
    var answer := Fetched(found, lookupErr);
    var fetched := GetUserByEmail("bob@example.com", _ => answer);
    var outcome := Login(true, None, LoginRequest("bob@example.com", "hunter2"), fetched, matches,
                         e => GenerateJWT(TestConfig, issue, e));
    loggedIn := outcome.response;
    token := issue("bob@example.com", TestSecret, "24h").value;

    var all, listErr := repo.GetAll();
    assert all == [bob];
    withoutToken := ProtectedGetUsers(TestSecret, verify, "", Listing(all, listErr));
    BearerTokenExtracted(TestSecret, verify, token, map[]);
    withToken := ProtectedGetUsers(TestSecret, verify, BearerPrefix + token, Listing(all, listErr));
    EncodeIgnoresHash(User("", "Bob", "bob@example.com", "1.1.1.1", "UA", ""), bob.passwordHash);
    assert EncodeUsers([bob]) == Arr([EncodeUser(bob)]);
  }
}
