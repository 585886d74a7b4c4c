/** router.SetupRouter's protected group: /users and /users/{id} sit behind the JWT middleware. */
module Router {
  import opened Wrappers
  import opened Http
  import opened Service
  import opened Middleware
  import Handler

  /**
   * GET /users: the middleware first; the handler (and through it the service's
   * GetAllUsers over the repository's answer) only when the token verifies.
   */
  function ProtectedGetUsers(secret: string, verify: (string, string) -> Result<string>,
                             header: string, fromRepo: Listing): (r: Response)
    ensures JWTMiddleware(secret, verify, header, map[]).gate.Reject? ==>
      r == JWTMiddleware(secret, verify, header, map[]).gate.response && r.status == StatusUnauthorized
    ensures JWTMiddleware(secret, verify, header, map[]).gate.Forward? ==> r == Handler.GetUsers(GetAllUsers(fromRepo))
    ensures r.status == StatusOK <==>
      HasPrefix(header, BearerPrefix) && verify(TrimPrefix(header, BearerPrefix), secret).Ok? && fromRepo.err.None?
  {
    match JWTMiddleware(secret, verify, header, map[]).gate
    case Reject(response) => response
    case Forward(_) => Handler.GetUsers(GetAllUsers(fromRepo))
  }

  /** GET /users/{id}: the middleware first, then the handler over the service's GetUserByID. */
  function ProtectedGetUserByID(secret: string, verify: (string, string) -> Result<string>,
                                header: string, id: string, byID: string -> Fetched): (r: Response)
    ensures JWTMiddleware(secret, verify, header, map[]).gate.Reject? ==>
      r == JWTMiddleware(secret, verify, header, map[]).gate.response && r.status == StatusUnauthorized
    ensures JWTMiddleware(secret, verify, header, map[]).gate.Forward? ==> r == Handler.GetUserByID(GetUserByID(id, byID))
    ensures r.status == StatusNotFound <==>
      JWTMiddleware(secret, verify, header, map[]).gate.Forward? && byID(id).err.None? && byID(id).user.None?
  {
    match JWTMiddleware(secret, verify, header, map[]).gate
    case Reject(response) => response
    case Forward(_) => Handler.GetUserByID(GetUserByID(id, byID))
  }
}
