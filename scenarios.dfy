/** Client request sequences run against the handlers' contracts: what the
    requests of the example in the user tests yield. */
module Scenarios {
  import opened Wrappers
  import opened Js
  import opened UserModel
  import opened PostModel
  import opened BlogSettingsModel
  import opened SessionStore
  import opened Http
  import opened RegistrationCredentials
  import opened AuthenticationGuard
  import opened AdminGuard
  import opened UserController
  import opened PostController
  import opened BlogSettingsController

  const Hash: Bcrypt.Hasher := (p: string) => "$2b$10$" + p
  const Credentials: CredentialsBody := CredentialsBody(Defined("user"), Defined("pass"), Defined(true))

  /** Registering "user"/"pass" succeeds once and is refused the second
      time; the body's `admin` is ignored. */
  method RegisterTwice() returns (users: UserCollection)
    ensures users.Valid() && users.rows == [User(0, "user", "$2b$10$pass", false)]
  {
    users := new UserCollection();
    assert ValidateRegistrationCredentials(Credentials.username, Credentials.password) == "";
    assert Hash("pass") == "$2b$10$pass";
    assert !Taken(users.rows, "user");
    var r := Register(users, Credentials, Hash);
    assert r == UserCreated;

    r := Register(users, Credentials, Hash);
    assert Matches(ByUsername("user"), users.rows[0]);
    assert r == UsernameTaken;
  }

  /** A wrong password is refused; the right one logs the user in, after
      which the authentication guard passes and the admin guard does not. */
  method LoginAndGuards()
  {
    var users := RegisterTwice();
    var session := new Session();
    var r := Login(users, session, CredentialsBody(Defined("user"), Defined("psswrd"), Undefined), Hash);
    assert Matches(ByUsername("user"), users.rows[0]);
    assert Hash("psswrd") != "$2b$10$pass" by {
      assert Hash("psswrd")[7] == 'p' && Hash("psswrd")[8] == 's' && Hash("psswrd")[9] == 's';
    }
    assert r == WrongCredentials && session.userId == Undefined;

    r := Login(users, session, Credentials, Hash);
    assert r == Response(OK, UserInfoJson(UserInfo("user", false)));
    assert CheckIfAuthenticated(session.userId) == Next;
    CheckIfAdminStoredUser(users.rows, 0);
    assert CheckIfAdmin(users.rows, session.userId) == Reject(NotAdmin);

    r := Logout(session);
    assert r == LoggedOut;
    assert CheckIfAuthenticated(session.userId).Reject?;
    r := Logout(session);
    assert r == NotLoggedInNoContent;
  }

  /** Posting needs a session whose user exists; the non-admin user cannot
      change the blog settings. */
  method PostAndSettings()
  {
    var users := RegisterTwice();
    var posts := new PostCollection();
    var store := new BlogSettingsCollection(Some(DefaultBlogSettings));
    var session := new Session();
    var post := PostBody(Defined("t"), Defined("c"), Undefined);

    var r := Create(users, posts, session, post);
    assert r == UnknownAuthor && posts.rows == [];

    session.userId := Defined(0);
    assert Matches(ById(0), users.rows[0]);
    r := Create(users, posts, session, post);
    assert r == Response(Created, PostJson(Post("t", 0, "c", Undefined)));
    assert GetAll(posts).body.posts == [Post("t", 0, "c", Undefined)];

    CheckIfAdminStoredUser(users.rows, 0);
    r := PatchBlogSettings(users, session, store, SettingsBody(Defined("flatly")));
    assert r == NotAdmin && store.doc == Some(DefaultBlogSettings);
  }

  /** A client that never logged in changes the blog theme through the
      route as wired, because the first stored user is an admin; the
      corrected route refuses the same request. */
  method AnonymousSettingsChange()
  {
    var users := new UserCollection();
    users.Save(User(0, "admin", "$2b$10$root", true));
    var session := new Session();
    var store := new BlogSettingsCollection(Some(DefaultBlogSettings));
    var body := SettingsBody(Defined("flatly"));
    assert SchemaAccepts(Settings("flatly"));

    var r := PatchBlogSettings(users, session, store, body);
    assert r == InvalidCredentials && store.doc == Some(DefaultBlogSettings);

    r := PatchBlogSettingsAsWritten(users, session, store, body);
    assert r == Response(OK, SettingsJson(Settings("flatly")));
    assert store.doc == Some(Settings("flatly"));
  }
}
