/** The `auth` middleware of middleware/auth.js: cookie, then token, then user
    lookup, ending either in an error response or in a call to `next` with
    `req.user` set. */
module Gate {
  import opened Common
  import opened Accounts

  /** The user document as `select("-password")` returns it. */
  datatype UserView = UserView(id: UserId, email: string, contacts: seq<UserId>)

  /** The two ways the middleware can end. Exactly one happens on every
      path: a response is sent, or `next` is called once with the user. */
  datatype Verdict = Respond(status: nat, error: string) | Next(user: UserView)

  function View(u: User): UserView
  {
    UserView(u.id, u.email, u.contacts)
  }

  /** `auth`: no cookie is a 401, a rejected token a 401, an unreachable store
      a 500 (the lookup throws), an id with no user a 404; otherwise the
      request goes on with the user found, password left out. */
  function Auth(cookie: Option<Token>, verify: Verifier, t: Table, storeUp: bool): (r: Verdict)
    ensures !Truthy(cookie) ==> r == Respond(401, "No token unauthorized")
    ensures Truthy(cookie) && verify(cookie.value).None? ==> r == Respond(401, "Invalid token")
    ensures Truthy(cookie) && verify(cookie.value).Some? && !storeUp ==> r == Respond(500, "Server error")
    ensures Truthy(cookie) && verify(cookie.value).Some? && storeUp && verify(cookie.value).value !in Ids(t) ==>
              r == Respond(404, "User not found")
    ensures r.Next? <==> Truthy(cookie) && verify(cookie.value).Some? && storeUp && verify(cookie.value).value in Ids(t)
    ensures r.Next? ==> r.user.id == verify(cookie.value).value
                        && exists i :: 0 <= i < |t| && t[i].id == r.user.id && r.user == View(t[i])
  {
    if !Truthy(cookie) then Respond(401, "No token unauthorized")
    else
      match verify(cookie.value)
      case None => Respond(401, "Invalid token")
      case Some(id) =>
        if !storeUp then Respond(500, "Server error")
        else
          match IndexOfId(t, id)
          case None =>
            assert id !in Ids(t);
            Respond(404, "User not found")
          case Some(i) => Next(View(t[i]))
  }
}
