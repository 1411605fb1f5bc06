/** The `User` entity and the user store the services talk to. The store is
    an in-memory table standing in for the ORM repository: rows in insertion
    order, ids generated by the store starting at 1 and never reused. */
module Users {
  import opened Outcomes
  import opened EcmaParseInt

  /** A row of the `user` table. `password` holds the stored credential. */
  datatype User = User(id: int, email: string, password: string, admin: bool)

  /** The body of a profile update: the properties it carries, if any. */
  datatype UserPatch = UserPatch(email: Option<string>, password: Option<string>)

  /** `find(email)`: every user with this email, in insertion order. */
  function FindByEmail(users: seq<User>, email: string): (r: seq<User>)
    ensures forall u :: u in r <==> u in users && u.email == email
    ensures r == [] <==> forall u :: u in users ==> u.email != email
    ensures |r| <= |users|
  {
    if users == [] then []
    else
      var last := users[|users| - 1];
      FindByEmail(users[..|users| - 1], email) + (if last.email == email then [last] else [])
  }

  /** Adding a row adds it at the end of the matches for its email and
      changes no other email's matches. */
  lemma FindByEmailAppend(users: seq<User>, u: User, email: string)
    ensures FindByEmail(users + [u], email)
         == FindByEmail(users, email) + (if u.email == email then [u] else [])
  {
    assert (users + [u])[..|users|] == users;
  }

  /** The first match of `find(email)` is the earliest row with that email. */
  lemma {:induction false} FindByEmailFirst(users: seq<User>, email: string, k: nat)
    requires k < |users| && users[k].email == email
    requires forall j :: 0 <= j < k ==> users[j].email != email
    ensures FindByEmail(users, email) != [] && FindByEmail(users, email)[0] == users[k]
  {
    var n := |users| - 1;
    var init := users[..n];
    var tail := if users[n].email == email then [users[n]] else [];
    assert FindByEmail(users, email) == FindByEmail(init, email) + tail;
    if k < n {
      assert init[k] == users[k];
      FindByEmailFirst(init, email, k);
      assert (FindByEmail(init, email) + tail)[0] == FindByEmail(init, email)[0];
    } else {
      NoMatchBefore(users, email, n);
      assert FindByEmail(users, email) == [users[k]];
    }
  }

  /** With no match among the first `n` rows, their `find` list is empty. */
  lemma NoMatchBefore(users: seq<User>, email: string, n: nat)
    requires n <= |users|
    requires forall j :: 0 <= j < n ==> users[j].email != email
    ensures FindByEmail(users[..n], email) == []
  {
    var init := users[..n];
    forall u | u in init
      ensures u.email != email
    {
      var j :| 0 <= j < n && init[j] == u;
      assert users[j] == u;
    }
  }

  /** The position of the row whose id is `id`, if any; NaN matches no row. */
  function IndexOfId(users: seq<User>, id: IntOrNaN): (r: Option<nat>)
    ensures r.Some? ==> r.value < |users| && id == Int(users[r.value].id)
    ensures r.Some? ==> forall j :: 0 <= j < r.value ==> id != Int(users[j].id)
    ensures r.None? <==> forall j :: 0 <= j < |users| ==> id != Int(users[j].id)
  {
    if users == [] then None
    else if id == Int(users[0].id) then Some(0)
    else match IndexOfId(users[1..], id)
      case None => None
      case Some(k) => Some(k + 1)
  }

  /** `findOne(id)`: the row with this id, or nothing. */
  function FindById(users: seq<User>, id: IntOrNaN): (r: Option<User>)
    ensures r.Some? ==> r.value in users && id == Int(r.value.id)
    ensures r.None? <==> forall u :: u in users ==> id != Int(u.id)
  {
    match IndexOfId(users, id)
    case None => None
    case Some(k) => Some(users[k])
  }

  /** `Object.assign(user, attrs)`: each property present in the patch is
      copied verbatim; the id and the admin flag are kept. */
  function ApplyPatch(u: User, patch: UserPatch): (r: User)
    ensures r.id == u.id && r.admin == u.admin
    ensures r.email == (if patch.email.Some? then patch.email.value else u.email)
    ensures r.password == (if patch.password.Some? then patch.password.value else u.password)
  {
    User(u.id,
         match patch.email case Some(e) => e case None => u.email,
         match patch.password case Some(p) => p case None => u.password,
         u.admin)
  }

  /** Ids are positive, below the next id to hand out, and increase along the table. */
  ghost predicate IdsOrdered(users: seq<User>, nextId: int) {
    && nextId >= 1
    && (forall i :: 0 <= i < |users| ==> 1 <= users[i].id < nextId)
    && (forall i, j :: 0 <= i < j < |users| ==> users[i].id < users[j].id)
  }

  class UserStore {
    /** The rows of the table, in insertion order. */
    var users: seq<User>
    /** The id the next inserted row receives. */
    var nextId: int

    ghost predicate Valid()
      reads this
    {
      IdsOrdered(users, nextId)
    }

    constructor ()
      ensures Valid() && users == [] && nextId == 1
    {
      users := [];
      nextId := 1;
    }

    /** `create(email, password)`: inserts a row with a fresh id and the
        column default `admin = true`, and returns it. */
    method Create(email: string, password: string) returns (u: User)
      requires Valid()
      modifies this
      ensures Valid()
      ensures u == User(old(nextId), email, password, true)
      ensures users == old(users) + [u] && nextId == old(nextId) + 1
    {
      u := User(nextId, email, password, true);
      users := users + [u];
      nextId := nextId + 1;
    }

    /** `update(id, attrs)`: fails with NotFound when no row has this id;
        otherwise patches that row in place and returns it. */
    method Update(id: IntOrNaN, patch: UserPatch) returns (r: Result<User>)
      requires Valid()
      modifies this
      ensures Valid() && nextId == old(nextId)
      ensures IndexOfId(old(users), id).None? ==>
               r == Err(NotFound("user not found")) && users == old(users)
      ensures IndexOfId(old(users), id).Some? ==>
               var k := IndexOfId(old(users), id).value;
               && r == Ok(ApplyPatch(old(users)[k], patch))
               && users == old(users)[k := r.value]
    {
      match IndexOfId(users, id)
      case None =>
        r := Err(NotFound("user not found"));
      case Some(k) =>
        var u := ApplyPatch(users[k], patch);
        users := users[k := u];
        r := Ok(u);
    }

    /** `remove(id)`: fails with NotFound when no row has this id; otherwise
        deletes that row and returns it. */
    method Remove(id: IntOrNaN) returns (r: Result<User>)
      requires Valid()
      modifies this
      ensures Valid() && nextId == old(nextId)
      ensures IndexOfId(old(users), id).None? ==>
               r == Err(NotFound("user not found")) && users == old(users)
      ensures IndexOfId(old(users), id).Some? ==>
               var k := IndexOfId(old(users), id).value;
               && r == Ok(old(users)[k])
               && users == old(users)[..k] + old(users)[k + 1..]
    {
      match IndexOfId(users, id)
      case None =>
        r := Err(NotFound("user not found"));
      case Some(k) =>
        r := Ok(users[k]);
        RemovePreservesIds(users, nextId, k);
        users := users[..k] + users[k + 1..];
    }
  }

  lemma RemovePreservesIds(users: seq<User>, nextId: int, k: nat)
    requires IdsOrdered(users, nextId) && k < |users|
    ensures IdsOrdered(users[..k] + users[k + 1..], nextId)
  {
    var rest := users[..k] + users[k + 1..];
    forall i | 0 <= i < |rest|
      ensures rest[i] == users[if i < k then i else i + 1]
    {
    }
  }
}
