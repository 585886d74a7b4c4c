/** service.UserService: registration enrichment and pass-through reads over the ports. */
module Service {
  import opened Wrappers
  import opened Model
  import opened GeoIP
  import opened MockRepository

  /** service.Config: the secret and lifetime handed to the token issuer. */
  datatype Config = Config(jwtSecret: string, jwtExpiration: string)

  /** A `(*model.User, error)` pair; nil user with nil error means "no such user". */
  datatype Fetched = Fetched(user: Option<User>, err: Option<string>)

  /** A `([]*model.User, error)` pair; the nil slice is []. */
  datatype Listing = Listing(users: seq<User>, err: Option<string>)

  /** A `(string, error)` pair from GenerateJWT. */
  datatype Issued = Issued(token: string, err: Option<string>)

  const IPRequired := "user IP is required"
  const EnrichFailed := "failed to enrich user with country: "
  const SaveFailed := "failed to save user: "
  const JWTFailed := "failed to generate JWT: "

  /**
   * What one CreateUser does: the user as it is left, the error returned, the IPs looked up
   * and the users handed to Save, in order.
   */
  datatype Creation = Creation(user: User, err: Option<string>, lookedUp: seq<string>, saved: seq<User>)

  /** CreateUser as a function of the user, the GeoIP port's answers and the store's save faults. */
  function Create(u: User, answer: string -> Result<string>, saveFault: User -> Option<string>): (c: Creation)
    // An empty IP is refused before either port is called.
    ensures u.ip == "" ==> c == Creation(u, Some(IPRequired), [], [])
    // Otherwise the IP is looked up exactly once.
    ensures u.ip != "" ==> c.lookedUp == [u.ip]
    // A failed lookup leaves the user untouched and saves nothing.
    ensures u.ip != "" && answer(u.ip).Err? ==>
      c.user == u && c.saved == [] && c.err == Some(EnrichFailed + answer(u.ip).error)
    // A successful lookup sets the country, and only the country, before the one Save.
    ensures u.ip != "" && answer(u.ip).Ok? ==>
      c.user == u.(country := answer(u.ip).value) && c.saved == [c.user]
    // The Save error is reported, the country staying set.
    ensures c.saved != [] && saveFault(c.user).Some? ==> c.err == Some(SaveFailed + saveFault(c.user).value)
    // nil only when both the lookup and the save succeeded.
    ensures c.err.None? <==> u.ip != "" && answer(u.ip).Ok? && saveFault(u.(country := answer(u.ip).value)).None?
    ensures |c.saved| <= 1
  {
    if u.ip == "" then Creation(u, Some(IPRequired), [], [])
    else match answer(u.ip)
      case Err(e) => Creation(u, Some(EnrichFailed + e), [u.ip], [])
      case Ok(country) =>
        var enriched := u.(country := country);
        match saveFault(enriched)
        case Some(e) => Creation(enriched, Some(SaveFailed + e), [u.ip], [enriched])
        case None => Creation(enriched, None, [u.ip], [enriched])
  }

  /** A nil user with nil error comes back as it is; on error the user is dropped. */
  function Normalize(f: Fetched): Fetched
  {
    if f.err.Some? then Fetched(None, f.err) else f
  }

  /** GetAllUsers: the repository's list unchanged, or nil with the repository's error. */
  function GetAllUsers(fromRepo: Listing): (r: Listing)
    ensures r.err == fromRepo.err
    ensures r.err.None? ==> r.users == fromRepo.users
    ensures r.err.Some? ==> r.users == []
  {
    if fromRepo.err.Some? then Listing([], fromRepo.err) else fromRepo
  }

  /** GetUserByID: exactly what the repository answers for the id; absence is not an error. */
  function GetUserByID(id: string, byID: string -> Fetched): (r: Fetched)
    ensures r.err == byID(id).err
    ensures r.err.None? ==> r.user == byID(id).user
    ensures r.err.Some? ==> r.user == None
  {
    Normalize(byID(id))
  }

  /** GetUserByEmail: exactly what the repository answers for the email; absence is not an error. */
  function GetUserByEmail(email: string, byEmail: string -> Fetched): (r: Fetched)
    ensures r.err == byEmail(email).err
    ensures r.err.None? ==> r.user == byEmail(email).user
    ensures r.err.Some? ==> r.user == None
  {
    Normalize(byEmail(email))
  }

  /**
   * GenerateJWT: the issuer is asked with the configured secret and lifetime; its failure
   * gives "" and an error.
   */
  function GenerateJWT(config: Config, issue: (string, string, string) -> Result<string>, email: string): (r: Issued)
    ensures issue(email, config.jwtSecret, config.jwtExpiration).Ok? ==>
      r == Issued(issue(email, config.jwtSecret, config.jwtExpiration).value, None)
    ensures issue(email, config.jwtSecret, config.jwtExpiration).Err? ==>
      r.token == "" && r.err == Some(JWTFailed + issue(email, config.jwtSecret, config.jwtExpiration).error)
  {
    match issue(email, config.jwtSecret, config.jwtExpiration)
    case Ok(token) => Issued(token, None)
    case Err(e) => Issued("", Some(JWTFailed + e))
  }

  class UserService {
    const repo: UserRepository
    const geoIP: GeoIPService
    const config: Config

    constructor (repo: UserRepository, geoIP: GeoIPService, config: Config)
      ensures this.repo == repo && this.geoIP == geoIP && this.config == config
    {
      this.repo := repo;
      this.geoIP := geoIP;
      this.config := config;
    }

    /**
     * CreateUser: refuses an empty IP, asks the GeoIP port, writes the country into the
     * user in place, then saves through the repository port.
     */
    method CreateUser(user: UserRef) returns (err: Option<string>)
      requires repo.Valid()
      modifies user, repo, geoIP
      ensures repo.Valid()
      ensures var stored := old(repo.users);
        var c := Create(old(user.val), geoIP.answer, u => repo.saveFault(stored, u));
        && user.val == c.user
        && err == c.err
        && geoIP.queries == old(geoIP.queries) + c.lookedUp
        && repo.saveCalls == old(repo.saveCalls) + c.saved
        && repo.users == (if c.err.None? then old(repo.users)[c.user.email := c.user] else old(repo.users))
    {
      if user.val.ip == "" {
        return Some(IPRequired);
      }
      var country, lookupErr := geoIP.GetCountryByIP(user.val.ip);
      if lookupErr.Some? {
        return Some(EnrichFailed + lookupErr.value);
      }
      user.val := user.val.(country := country);
      var saveErr := repo.Save(user.val);
      if saveErr.Some? {
        return Some(SaveFailed + saveErr.value);
      }
      return None;
    }
  }
}
