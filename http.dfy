/** The request-scoped objects the auth code reads and writes: the cookie
    session bag, the request, and the rest of the handler chain. */
module Http {
  import opened Outcomes
  import opened Users

  /** What `session.userId` can hold: never set, explicitly `null`, or a number. */
  datatype SessionValue = Undefined | Null | Id(n: int)

  /** JavaScript truthiness of that value: `undefined`, `null` and `0` are falsy. */
  predicate Truthy(v: SessionValue)
    ensures Truthy(v) <==> v != Undefined && v != Null && v != Id(0)
  {
    v.Id? && v.n != 0
  }

  /** The session bag the cookie middleware attaches to a request. */
  class Session {
    var userId: SessionValue

    /** A request without a (valid) cookie gets an empty bag. */
    constructor ()
      ensures userId == Undefined
    {
      userId := Undefined;
    }
  }

  /** `request.session` (possibly missing) and `request.currentUser`, which
      is `None` both while unassigned and when assigned `null`. */
  class Request {
    var session: Session?
    var currentUser: Option<User>

    constructor (session: Session?)
      ensures this.session == session && currentUser == None
    {
      this.session := session;
      currentUser := None;
    }
  }

  /** `session.userId` as the interceptor reads it: `request.session || {}`
      turns a missing session into an empty bag. */
  function SessionUserId(session: Session?): (v: SessionValue)
    reads session
    ensures session == null ==> v == Undefined
    ensures session != null ==> v == session.userId
  {
    if session == null then Undefined else session.userId
  }

  /** The next step of the chain (`handler.handle()`); it records the
      current user it finds on the request each time it runs. */
  class CallHandler {
    var seen: seq<Option<User>>

    constructor ()
      ensures seen == []
    {
      seen := [];
    }

    method Handle(request: Request)
      modifies this
      ensures seen == old(seen) + [request.currentUser]
    {
      seen := seen + [request.currentUser];
    }
  }
}
