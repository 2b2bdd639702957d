/** `checkIfAuthenticated`: lets a request through when its session holds
    a user id. */
module AuthenticationGuard {
  import opened Js
  import opened UserModel
  import opened Http

  const NotLoggedIn: Response := Response(Unauthorized, ErrorJson("You're not logged in."))

  /** A stored id is the string form of an ObjectId and so never empty:
      the session is truthy exactly when it holds an id. */
  function CheckIfAuthenticated(userId: JsValue<UserId>): (g: Guard)
    ensures g.Next? <==> userId.Defined?
    ensures g.Reject? ==> g.response == NotLoggedIn
  {
    if userId.Defined? then Next else Reject(NotLoggedIn)
  }
}
