/** `checkIfAdmin`: lets a request through when the user its session names
    is stored with the admin flag set. The flag is read from the users
    collection on every request, never from the session. */
module AdminGuard {
  import opened Wrappers
  import opened Js
  import opened UserModel
  import opened Http

  const InvalidCredentials: Response := Response(Unauthorized, ErrorJson("Invalid credentials."))
  const NotAdmin: Response := Response(Unauthorized, ErrorJson("Unauthorized."))

  function Decide(user: Option<User>): (g: Guard)
    ensures g.Next? <==> user.Some? && user.value.admin
    ensures user.None? ==> g == Reject(InvalidCredentials)
    ensures user.Some? && !user.value.admin ==> g == Reject(NotAdmin)
  {
    match user
    case None => Reject(InvalidCredentials)
    case Some(u) => if u.admin then Next else Reject(NotAdmin)
  }

  /** The guard as written: the lookup is `findOne({ _id: userId })`, and
      a session that never held an id turns it into `findOne({})`, which
      returns the first stored user. */
  function CheckIfAdminAsWritten(rows: seq<User>, userId: JsValue<UserId>): (g: Guard)
    ensures userId.Undefined? ==> (g.Next? <==> |rows| > 0 && rows[0].admin)
    ensures !userId.Undefined? ==> g == CheckIfAdmin(rows, userId)
  {
    var f := IdFilter(userId);
    FindOneAnyIsFirst(rows);
    Decide(FindOne(rows, f))
  }

  /** A request from a fresh session, which no one has logged into, passes
      the guard as written when the first user is an admin. */
  lemma AnonymousPassesAdminGuardAsWritten()
    ensures var rows := [User(0, "admin", "$2b$10$hash", true)];
            CheckIfAdminAsWritten(rows, Undefined) == Next
            && CheckIfAdmin(rows, Undefined) == Reject(InvalidCredentials)
  {
  }

  /** The guard with the lookup the middleware intends: a session without
      an id names no user. */
  function CheckIfAdmin(rows: seq<User>, userId: JsValue<UserId>): (g: Guard)
    ensures !userId.Defined? ==> g == Reject(InvalidCredentials)
    ensures userId.Defined? && (forall i :: 0 <= i < |rows| ==> rows[i].id != userId.value)
            ==> g == Reject(InvalidCredentials)
    ensures g.Next? ==> userId.Defined? && exists i :: 0 <= i < |rows| && rows[i].id == userId.value && rows[i].admin
    ensures g.Reject? ==> g.response == InvalidCredentials || g.response == NotAdmin
  {
    Decide(FindOne(rows, FindByIdFilter(userId)))
  }

  /** In a well-formed collection the guard's answer for a stored user is
      decided by that user's own admin flag. */
  lemma CheckIfAdminStoredUser(rows: seq<User>, k: nat)
    requires WellFormed(rows) && k < |rows|
    ensures CheckIfAdmin(rows, Defined(k)) == if rows[k].admin then Next else Reject(NotAdmin)
  {
  }
}
