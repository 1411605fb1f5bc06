/** `CurrentUserInterceptor`: before the handler runs, resolves the session's
    user id to a user row and attaches it to the request as `currentUser`. */
module CurrentUserInterceptor {
  import opened EcmaParseInt
  import opened Users
  import opened Http

  /** `intercept(context, handler)`: a truthy `userId` in the session (a
      missing session counts as an empty bag) is looked up with `findOne`,
      and the result, found or not, becomes `request.currentUser`; a falsy
      one leaves `currentUser` as it was. Then the handler runs once, and
      sees the request after that assignment. The session and the store are
      only read. */
  method Intercept(request: Request, store: UserStore, handler: CallHandler)
    modifies request`currentUser, handler
    ensures request.session == old(request.session)
    ensures var v := old(SessionUserId(request.session));
            && (Truthy(v) ==> request.currentUser == FindById(store.users, Int(v.n)))
            && (!Truthy(v) ==> request.currentUser == old(request.currentUser))
    ensures handler.seen == old(handler.seen) + [request.currentUser]
  {
    var userId := SessionUserId(request.session);
    if Truthy(userId) {
      var user := FindById(store.users, Int(userId.n));
      request.currentUser := user;
    }
    handler.Handle(request);
  }
}
