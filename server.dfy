/**
 * The state the server keeps between requests: the file-server hit counter
 * that the metrics middleware increments, the users table the admin reset
 * empties, and the platform name that gates that reset.
 */
module Server {
  import opened Store
  import opened Replies
  import opened Common
  import opened Auth
  import UserHandlers = Users

  /** The platform on which the admin reset is allowed. */
  const DevPlatform: string := "dev"

  const DeleteFailure := "Failed to delete all users"

  class ServerState {
    /** `fileserverHits`: requests served under `/app/` since start or reset. */
    var fileserverHits: int
    /** The users table. */
    var users: Users
    /** `platform`, read from the environment at start-up. */
    const platform: string

    ghost predicate Valid()
      reads this
    {
      fileserverHits >= 0 && WellKeyed(users)
    }

    constructor (platform: string, users: Users)
      requires WellKeyed(users)
      ensures Valid()
      ensures this.platform == platform && this.users == users && fileserverHits == 0
    {
      this.platform := platform;
      this.users := users;
      fileserverHits := 0;
    }

    /**
     * `mwMetricsInc`: count the request, then answer it as the wrapped
     * handler does (`next` is that handler's reply).
     */
    method MetricsInc(next: Response) returns (r: Response)
      requires Valid()
      modifies this`fileserverHits
      ensures Valid()
      ensures fileserverHits == old(fileserverHits) + 1
      ensures r == next
    {
      fileserverHits := fileserverHits + 1;
      r := next;
    }

    /** `metrics`: the admin HTML page showing the current count. */
    function Metrics(): (r: Response)
      requires Valid()
      reads this
      ensures r == Response(StatusOK, MetricsPage(fileserverHits), false)
      ensures r.body.hits >= 0
    {
      Response(StatusOK, MetricsPage(fileserverHits), false)
    }

    /**
     * `reset` (the later version): refused with 403 off the development
     * platform; otherwise all users are deleted and, only if that worked,
     * the counter goes back to 0. `fault` is a failure of the delete query.
     */
    method Reset(fault: bool) returns (r: Response)
      requires Valid()
      modifies this
      ensures Valid()
      ensures platform != DevPlatform ==>
                r == WriteHeader(StatusForbidden)
                && users == old(users) && fileserverHits == old(fileserverHits)
      ensures platform == DevPlatform && fault ==>
                r == RespondWithError(StatusInternalServerError, DeleteFailure)
                && users == old(users) && fileserverHits == old(fileserverHits)
      ensures platform == DevPlatform && !fault ==>
                r == WriteHeader(StatusNoContent) && users == map[] && fileserverHits == 0
    {
      if platform != DevPlatform {
        return WriteHeader(StatusForbidden);
      }
      if fault {
        return RespondWithError(StatusInternalServerError, DeleteFailure);
      }
      users := map[];
      fileserverHits := 0;
      r := WriteHeader(StatusNoContent);
    }

    /** `reset` (the earlier version): the counter back to 0, unconditionally. */
    method ResetHits() returns (r: Response)
      requires Valid()
      modifies this`fileserverHits
      ensures Valid()
      ensures fileserverHits == 0 && r == WriteHeader(StatusOK)
    {
      fileserverHits := 0;
      r := WriteHeader(StatusOK);
    }
  }

  /**
   * After a reset that deleted the users, no login succeeds: every request
   * with both fields gets the single 401, whatever the password.
   */
  lemma NoLoginAfterReset(server: ServerState, auth: AuthPackage,
                          params: UserHandlers.UserParams, fault: bool)
    requires server.Valid() && server.users == map[]
    requires auth.Ready() && UserHandlers.Complete(params)
    ensures UserHandlers.Login(auth, server.users, Some(params), fault).response
              == UserHandlers.Unauthorized()
  {
  }
}
