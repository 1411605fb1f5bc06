/** `UsersController` (routes under `/auth`): signup, signin and signout
    keep `session.userId` in step with the authenticated user; the other
    routes parse the `:id` path parameter with `parseInt` and forward it. */
module UsersController {
  import opened Outcomes
  import opened EcmaParseInt
  import opened Users
  import opened Http
  import opened AuthService
  import opened Guards
  import opened CurrentUserInterceptor

  /** `POST /auth/signup`: on success the session remembers the new user's
      id, which is truthy because store ids start at 1; on failure the error
      propagates before the session is touched. */
  method CreateUser(store: UserStore, session: Session, email: string, password: string,
                    saltBytes: SaltBytes, scrypt: Scrypt)
    returns (r: Result<User>)
    requires store.Valid()
    modifies store, session
    ensures store.Valid()
    ensures FindByEmail(old(store.users), email) != [] ==>
              && r == Err(BadRequest("email in use"))
              && store.users == old(store.users) && store.nextId == old(store.nextId)
              && session.userId == old(session.userId)
    ensures FindByEmail(old(store.users), email) == [] ==>
              && r == Ok(User(old(store.nextId), email, HashPassword(scrypt, password, saltBytes), true))
              && store.users == old(store.users) + [r.value] && store.nextId == old(store.nextId) + 1
              && session.userId == Id(r.value.id)
    ensures r.Ok? ==> Truthy(session.userId)
  {
    r := Signup(store, email, password, saltBytes, scrypt);
    if r.Ok? {
      session.userId := Id(r.value.id);
    }
  }

  /** `POST /auth/signin`: the outcome is the service's; on success the
      session remembers the user's id, on failure it is left as it was. */
  method SignIn(store: UserStore, session: Session, email: string, password: string, scrypt: Scrypt)
    returns (r: Result<User>)
    requires store.Valid()
    modifies session
    ensures r == Signin(store.users, email, password, scrypt)
    ensures r.Ok? ==> session.userId == Id(r.value.id) && Truthy(session.userId)
    ensures r.Err? ==> session.userId == old(session.userId)
  {
    r := Signin(store.users, email, password, scrypt);
    if r.Ok? {
      session.userId := Id(r.value.id);
    }
  }

  /** `POST /auth/signout`: `session.userId = null`, after which the auth
      guard refuses the session. */
  method SignOut(session: Session)
    modifies session
    ensures session.userId == Null && !Truthy(session.userId)
  {
    session.userId := Null;
  }

  /** `GET /auth/:id`: NotFound "user not found" exactly when no row has the
      id `parseInt(id)` (always so when the parameter has no leading digits),
      otherwise that row. */
  function FindUser(users: seq<User>, id: string): (r: Result<User>)
    ensures r.Err? <==> forall u :: u in users ==> ParseInt(id) != Int(u.id)
    ensures r.Err? ==> r.error == NotFound("user not found")
    ensures r.Ok? ==> r.value in users && ParseInt(id) == Int(r.value.id)
  {
    match FindById(users, ParseInt(id))
    case None => Err(NotFound("user not found"))
    case Some(u) => Ok(u)
  }

  /** `GET /auth?email=…`: the users with that email, oldest first. */
  function FindAllUsers(users: seq<User>, email: string): (r: seq<User>)
    ensures forall u :: u in r <==> u in users && u.email == email
  {
    FindByEmail(users, email)
  }

  /** `PATCH /auth/:id`: forwards `parseInt(id)` and the body. Only the
      first row with that id changes, and only in the fields the body sets;
      the patched password is stored exactly as sent, without hashing. */
  method UpdateUser(store: UserStore, id: string, body: UserPatch) returns (r: Result<User>)
    requires store.Valid()
    modifies store
    ensures store.Valid() && store.nextId == old(store.nextId)
    ensures r.Err? <==> forall u :: u in old(store.users) ==> ParseInt(id) != Int(u.id)
    ensures r.Err? ==> r == Err(NotFound("user not found")) && store.users == old(store.users)
    ensures r.Ok? ==> && r.value in store.users && ParseInt(id) == Int(r.value.id)
                      && (body.password.Some? ==> r.value.password == body.password.value)
                      && (body.email.Some? ==> r.value.email == body.email.value)
    ensures r.Ok? ==> var k := IndexOfId(old(store.users), ParseInt(id)).value;
                      && store.users == old(store.users)[k := ApplyPatch(old(store.users)[k], body)]
                      && r.value == store.users[k]
  {
    ghost var before := store.users;
    r := store.Update(ParseInt(id), body);
    if r.Ok? {
      assert store.users[IndexOfId(before, ParseInt(id)).value] == r.value;
    }
  }

  /** `DELETE /auth/:id`: forwards `parseInt(id)`; a successful removal
      deletes exactly the row with that id, keeping the others in order, and
      afterwards no row has that id any more, because ids are unique. */
  method RemoveUser(store: UserStore, id: string) returns (r: Result<User>)
    requires store.Valid()
    modifies store
    ensures store.Valid() && store.nextId == old(store.nextId)
    ensures r.Err? <==> forall u :: u in old(store.users) ==> ParseInt(id) != Int(u.id)
    ensures r.Err? ==> r == Err(NotFound("user not found")) && store.users == old(store.users)
    ensures r.Ok? ==> && r.value in old(store.users) && ParseInt(id) == Int(r.value.id)
                      && FindById(store.users, ParseInt(id)).None?
                      && |store.users| == |old(store.users)| - 1
    ensures r.Ok? ==> var k := IndexOfId(old(store.users), ParseInt(id)).value;
                      && store.users == old(store.users)[..k] + old(store.users)[k + 1..]
                      && r.value == old(store.users)[k]
  {
    ghost var before := store.users;
    r := store.Remove(ParseInt(id));
    if r.Ok? {
      var k := IndexOfId(before, ParseInt(id)).value;
      RemovedIdIsGone(before, store.nextId, k);
    }
  }

  /** Once the row at `k` is deleted, no remaining row carries its id. */
  lemma RemovedIdIsGone(users: seq<User>, nextId: int, k: nat)
    requires IdsOrdered(users, nextId) && k < |users|
    ensures forall u :: u in users[..k] + users[k + 1..] ==> u.id != users[k].id
  {
    var rest := users[..k] + users[k + 1..];
    forall u | u in rest
      ensures u.id != users[k].id
    {
      var i :| 0 <= i < |rest| && rest[i] == u;
      if i < k {
        assert rest[i] == users[i];
      } else {
        assert rest[i] == users[i + 1];
      }
    }
  }

  /** A password changed through PATCH is stored as plaintext; unless it
      happens to contain `.`, signin rejects every password for that user,
      including the new one. */
  lemma PatchedPlainPasswordLocksOut(users: seq<User>, k: nat, newPassword: string,
                                     attempt: string, scrypt: Scrypt)
    requires k < |users|
    requires forall j :: 0 <= j < k ==> users[j].email != users[k].email
    requires '.' !in newPassword
    ensures var patched := users[k := ApplyPatch(users[k], UserPatch(None, Some(newPassword)))];
            Signin(patched, users[k].email, attempt, scrypt) == Err(BadRequest("bad password"))
  {
    var patched := users[k := ApplyPatch(users[k], UserPatch(None, Some(newPassword)))];
    assert patched[k].email == users[k].email;
    SigninDecidedByFirstMatch(patched, k, attempt, scrypt);
    NoSeparatorNeverMatches(scrypt, newPassword, attempt);
  }

  /** The signup flow end to end on a fresh application: `POST /auth/signup`
      sets the session, the next request carrying that session passes the
      auth guard, the interceptor resolves the new user as `currentUser`,
      and that user, an admin by default, passes the admin guard. */
  method SignupThenAuthenticated(email: string, password: string, saltBytes: SaltBytes, scrypt: Scrypt)
    returns (signup: Result<User>, auth: Result<bool>, admin: bool, current: Option<User>)
    ensures signup.Ok? && signup.value.id == 1 && signup.value.email == email
    ensures auth == Ok(true) && admin
    ensures current == Some(signup.value)
  {
    var store := new UserStore();
    var session := new Session();
    signup := CreateUser(store, session, email, password, saltBytes, scrypt);
    var request := new Request(session);
    var handler := new CallHandler();
    Intercept(request, store, handler);
    auth := AuthGuardCanActivate(request);
    admin := AdminGuardCanActivate(request);
    current := request.currentUser;
  }

  /** After `POST /auth/signout` the same session no longer passes the auth
      guard, and the interceptor attaches no user to later requests. */
  method SignOutThenRefused(store: UserStore, session: Session) returns (auth: Result<bool>, current: Option<User>)
    modifies session
    ensures auth == Ok(false) && current == None
  {
    SignOut(session);
    var request := new Request(session);
    var handler := new CallHandler();
    Intercept(request, store, handler);
    auth := AuthGuardCanActivate(request);
    current := request.currentUser;
  }
}
