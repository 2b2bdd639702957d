/** The account handlers: `register`, `login`, `logout` and `ping`. The
    users collection and one client's session are the state they act on;
    the hasher is the password-hashing capability. */
module UserController {
  import opened Wrappers
  import opened Js
  import opened Bcrypt
  import opened UserModel
  import opened SessionStore
  import opened Http
  import opened RegistrationCredentials
  import opened AuthenticationGuard
  import opened AdminGuard

  /** The fields of a register or login request body. */
  datatype CredentialsBody = CredentialsBody(username: JsValue<string>, password: JsValue<string>, admin: JsValue<bool>)

  const UsernameTaken: Response := Response(Conflict, Text("This username is already taken."))
  const UserCreated: Response := Response(Created, Text("User created."))
  /** The one answer for an unknown username and for a wrong password. */
  const WrongCredentials: Response := Response(Unauthorized, Text("Wrong username or password."))
  const LoggedOut: Response := Response(OK, Text("Logged out."))
  /** Express sends a 204 without the body the handler passes. */
  const NotLoggedInNoContent: Response := Response(NoContent, Empty)

  /** Whether `User.exists({ username })` finds a document. */
  predicate Taken(rows: seq<User>, username: string): (r: bool)
    ensures r <==> exists i :: 0 <= i < |rows| && rows[i].username == username
  {
    FindOne(rows, ByUsername(username)).Some?
  }

  /** The user record registration stores for an accepted body. */
  function NewUser(rows: seq<User>, username: string, password: string, hash: Hasher): (u: User)
    ensures u.id == |rows| && u.username == username && u.password == hash(password) && !u.admin
  {
    User(|rows|, username, hash(password), false)
  }

  method Register(users: UserCollection, body: CredentialsBody, hash: Hasher) returns (r: Response)
    requires users.Valid()
    modifies users
    ensures users.Valid()
    ensures ValidateRegistrationCredentials(body.username, body.password) != "" ==>
      && r == Response(UnprocessableContent, Text(ValidateRegistrationCredentials(body.username, body.password)))
      && users.rows == old(users.rows)
    ensures ValidateRegistrationCredentials(body.username, body.password) == "" ==>
      var username, password := body.username.value, body.password.value;
      if Taken(old(users.rows), username) then
        r == UsernameTaken && users.rows == old(users.rows)
      else if hash(password) == "" then
        r == ServerError && users.rows == old(users.rows)
      else
        r == UserCreated && users.rows == old(users.rows) + [NewUser(old(users.rows), username, password, hash)]
  {
    // The body's own `admin` is overwritten before anything else.
    var admin := false;

    var validationError := ValidateRegistrationCredentials(body.username, body.password);
    if validationError != "" {
      return Response(UnprocessableContent, Text(validationError));
    }
    var username, password := body.username.value, body.password.value;

    if FindOne(users.rows, ByUsername(username)).Some? {
      return UsernameTaken;
    }

    var encrypted := hash(password);
    if encrypted == "" {
      return ServerError;
    }

    var newUser := User(users.NextId(), username, encrypted, admin);
    users.Save(newUser);
    r := UserCreated;
  }

  method Login(users: UserCollection, session: Session, body: CredentialsBody, hash: Hasher) returns (r: Response)
    modifies session
    ensures var found := FindOne(users.rows, UsernameFilter(body.username));
      if found.None? then
        r == WrongCredentials && session.userId == old(session.userId)
      else if !body.password.Defined? then
        r == Unhandled(ArgumentsRequired) && session.userId == old(session.userId)
      else if !Compare(body.password.value, found.value.password, hash) then
        r == WrongCredentials && session.userId == old(session.userId)
      else
        r == Response(OK, UserInfoJson(Info(found.value))) && session.userId == Defined(found.value.id)
    ensures r.Response? && r.status == OK ==> CheckIfAuthenticated(session.userId) == Next
  {
    var user := FindOne(users.rows, UsernameFilter(body.username));
    if user.None? {
      return WrongCredentials;
    }
    if !body.password.Defined? {
      return Unhandled(ArgumentsRequired);
    }
    var validPassword := Compare(body.password.value, user.value.password, hash);
    if !validPassword {
      return WrongCredentials;
    }

    session.Regenerate();
    session.userId := Defined(user.value.id);
    r := Response(OK, UserInfoJson(Info(user.value)));
  }

  method Logout(session: Session) returns (r: Response)
    modifies session
    ensures !old(session.userId).Defined? ==> r == NotLoggedInNoContent && session.userId == old(session.userId)
    ensures old(session.userId).Defined? ==> r == LoggedOut && session.userId == Undefined
    ensures CheckIfAuthenticated(session.userId).Reject?
  {
    if !session.userId.Defined? {
      return NotLoggedInNoContent;
    }
    // The id is cleared and saved, then the session is regenerated, so the
    // client is left with a fresh session.
    session.userId := Null;
    session.Regenerate();
    r := LoggedOut;
  }

  /** `ping` answers without looking at the session; no guard stands in
      front of it. */
  function Ping(userId: JsValue<UserId>): (r: Response)
    ensures r == Response(OK, Text("Still logged in."))
  {
    Response(OK, Text("Still logged in."))
  }

  /** After a successful registration the new account is the one a login
      with the same username finds, the password it was registered with
      matches its stored hash, and the admin guard turns it away. */
  lemma {:induction false} RegisteredUserCanLogIn(rows: seq<User>, username: string, password: string, hash: Hasher)
    requires WellFormed(rows)
    requires !Taken(rows, username)
    ensures var u := NewUser(rows, username, password, hash);
      && FindOne(rows + [u], ByUsername(username)) == Some(u)
      && Compare(password, u.password, hash)
      && CheckIfAdmin(rows + [u], Defined(u.id)) == Reject(NotAdmin)
  {
    var u := NewUser(rows, username, password, hash);
    FindOneAppend(rows, u, ByUsername(username));
    FindOneAppend(rows, u, ById(u.id));
    assert FindOne(rows, ById(u.id)).None?;
  }

  /** A login body without a username is looked up with an empty filter,
      so it is the first stored user's password that is checked. */
  lemma LoginWithoutUsernameChecksFirstUser(rows: seq<User>)
    ensures FindOne(rows, UsernameFilter(Undefined)) == if rows == [] then None else Some(rows[0])
  {
  }
}
