/** The two route guards. Each is a decision over the request; a false
    decision makes the framework answer Forbidden before the handler runs. */
module Guards {
  import opened Outcomes
  import opened EcmaParseInt
  import opened Users
  import opened Http

  /** `AuthGuard.canActivate`: returns `request.session.userId`, read as a
      truth value. Reading it from a missing session throws a TypeError. */
  function AuthGuardCanActivate(request: Request): (r: Result<bool>)
    reads request, request.session
    ensures request.session == null ==> r == Err(TypeError)
    ensures request.session != null ==> r.Ok?
    ensures request.session != null && request.session.userId == Undefined ==> r == Ok(false)
    ensures request.session != null && request.session.userId == Null ==> r == Ok(false)
    ensures request.session != null && request.session.userId == Id(0) ==> r == Ok(false)
    ensures request.session != null && request.session.userId.Id? && request.session.userId.n != 0 ==> r == Ok(true)
  {
    if request.session == null then Err(TypeError) else Ok(Truthy(request.session.userId))
  }

  /** `AdminGuard.canActivate`: false without a current user, otherwise that
      user's `admin` flag. */
  function AdminGuardCanActivate(request: Request): (r: bool)
    reads request
    ensures request.currentUser == None ==> !r
    ensures request.currentUser.Some? ==> r == request.currentUser.value.admin
  {
    if request.currentUser.None? then false else request.currentUser.value.admin
  }

  /** The admin decision depends on the current user only, not on the session. */
  lemma AdminGuardIgnoresSession(a: Request, b: Request)
    requires a.currentUser == b.currentUser
    ensures AdminGuardCanActivate(a) == AdminGuardCanActivate(b)
  {
  }

  /** A user the store has just created carries the column default
      `admin = true`. Its id is new, so resolving that id finds exactly this
      user, and a request carrying the result passes the admin guard. */
  lemma NewUserPassesAdminGuard(users: seq<User>, nextId: int, email: string, password: string,
                                request: Request)
    requires IdsOrdered(users, nextId)
    requires request.currentUser == FindById(users + [User(nextId, email, password, true)], Int(nextId))
    ensures request.currentUser == Some(User(nextId, email, password, true))
    ensures AdminGuardCanActivate(request)
  {
    var u := User(nextId, email, password, true);
    var all := users + [u];
    forall j | 0 <= j < |users|
      ensures Int(nextId) != Int(all[j].id)
    {
      assert all[j] == users[j];
    }
    assert all[|users|] == u;
  }
}
