/** The part of a client's server-side session the handlers use. */
module SessionStore {
  import opened Js
  import opened UserModel

  class Session {
    /** `req.session.userId`. */
    var userId: JsValue<UserId>

    /** A session as first created for a client: it carries no user id. */
    constructor ()
      ensures userId == Undefined
    {
      userId := Undefined;
    }

    /** `req.session.regenerate(...)`: the session is replaced by a fresh
        one, so whatever it held is gone. */
    method Regenerate()
      modifies this
      ensures userId == Undefined
    {
      userId := Undefined;
    }
  }
}
