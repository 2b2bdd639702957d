# BlogBoxAPI request-handling core, modelled in Dafny

This project models the request handlers of the BlogBoxAPI blogging backend, an Express/Mongoose server:

- account registration, login and logout over a users collection and one client's session;
- the two middleware guards, `checkIfAuthenticated` and `checkIfAdmin`;
- post creation and listing;
- the singleton blog-settings document, with its shape check and its admin-only update.

The database, the session store and bcrypt are abstracted:

- A collection is a class field: `seq<User>` or `seq<Post>` in insertion order, or `Option<Settings>` for the singleton.
- A Mongoose query is a `Filter` answered by `FindOne`, which returns the first matching document.
- The session is a class with one field, `userId`.
- bcrypt is an injected `Hasher` (`string -> string`). `Compare(p, h, hash)` holds exactly when `h == hash(p)`. The empty string stands for a falsy hash result.

Handlers that change state are methods. Their `ensures` give the response and the new state in terms of the old. Validators, guards and reads are functions whose contracts state what they accept, reject and return.

JavaScript semantics are modelled where the handlers depend on them:

- A body field or a session id is `JsValue<T>`: `Undefined | Null | Defined(v)`. `Truthy` is JavaScript truthiness for strings.
- String `.length` counts UTF-16 code units (`Utf16Length`), so a character outside the Basic Multilingual Plane counts twice. This matters for the length checks.
- A Mongoose filter with an `undefined` value behaves as the empty filter `{}`, which the model answers with the first stored document (see "## Left out"). `findById(undefined)` behaves as `{ _id: null }` and matches nothing (`UsernameFilter`, `IdFilter`, `FindByIdFilter`).
- Express sends a 204 without a body.
- A handler whose promise rejects sends no response itself. This is modelled as `Unhandled(reason)`.

Files, one module each: `wrappers.dfy`, `js.dfy`, `bcrypt.dfy`, `user_model.dfy`, `post_model.dfy`, `blog_settings_model.dfy`, `session.dfy`, `http.dfy`, `registration_credentials.dfy`, `password_helper.dfy`, `check_if_authenticated.dfy`, `check_if_admin.dfy`, `user_controller.dfy`, `post_controller.dfy`, `blog_settings_controller.dfy` and `scenarios.dfy`. The last one holds request sequences from the user tests, proved from the handlers' contracts alone: register twice, wrong then right login, guards, logout twice, posting with and without a session, a non-admin settings update, and a settings update from a session that never logged in, through the route as wired.

The code is followed where it differs from the tests:

- `login` does no presence check. The tests at `__tests__/routes/user.ts:64-74` expect 422. In the code:
  - A body without `username` is looked up with the empty filter, so the first stored user's password is checked (`LoginWithoutUsernameChecksFirstUser`).
  - A body without `password` makes `bcrypt.compare` reject with "data and hash arguments required", and no response is sent.
- The `/ping` test (`__tests__/routes/user.ts:127-133`) expects 401, but no route or guard is wired to `ping`. `ping` itself answers 200 whatever the session holds.
- The login test expects `userInfo`, `userSettings` and `admin` in the body. The code sends `{ username, admin }`.
- The blog-settings tests compare a `title`. The settings schema has only `theme`, so a `title` in a body is dropped.
- `checkIfAuthenticated` is not wired to any route. Post creation relies on its own author lookup.
- `create` answers 201 with the whole saved post.
- `logout` clears the id, saves, and then regenerates the session. The client therefore ends with a fresh session that holds no id (`Undefined`), not one holding `null`.
- A settings body whose theme is non-empty but outside the enum passes `isIBlogSettings`. The schema then refuses it at `save()`, which yields a 500 with the stored document unchanged.

## Model

| member | source | states |
|---|---|---|
| `Js.Utf16Length` | controllers/user.ts:14-17 | `.length` is at least the number of characters and at most twice it; it equals the number of characters when every character is in the Basic Multilingual Plane, and is 0 only for "" |
| `RegistrationCredentials.ValidateRegistrationCredentials` | controllers/user.ts:11-24 | returns "" exactly when both fields are non-empty strings, the username is 4-32 and the password 4-50 UTF-16 units long, and every username character is an ASCII letter of either case, a digit, '-' or '_'; otherwise it returns the message of the first failing check, in the order username presence, password presence, username length, password length, character set; validated usernames have 4-32 characters |
| `PasswordHelper.PasswordIssues` | helpers/validateAndHashPassword.ts:7-14 | no issue exactly when the length is 4-50; "" yields both "Password required." and the between-4-and-50 message, and any other rejected length only the latter |
| `PasswordHelper.ValidateAndHashPassword` | helpers/validateAndHashPassword.ts:4-27 | succeeds exactly when the length is 4-50 and the hash is truthy, and then returns `hash(password)`, which `Compare` accepts; a rejected length raises the validation error with its issues whatever the hasher does; a falsy hash raises "BCrypt error" |
| `PasswordHelper.PasswordRulesAgree` | helpers/validateAndHashPassword.ts:10-12 | for a non-empty password and an acceptable username, the helper raises a validation error exactly when the registration check rejects the pair |
| `RegistrationCredentials.MatchesUsernamePattern` | controllers/user.ts:20 | the regular expression `^([a-z0-9-_]+)$` with the case-insensitive flag: a non-empty string of ASCII letters, digits, '-' and '_'; a matching username is ASCII, so its `.length` is its character count |
| `Bcrypt.Compare` | controllers/user.ts:90 | the abstraction of `bcrypt.compare`: a password matches a stored hash exactly when the hash is the hasher's value for that password |
| `UserController.Taken` | controllers/user.ts:43 | `User.exists({ username })` finds a document exactly when some stored user has that username |
| `BlogSettingsModel.IsIBlogSettings` | interfaces/blogSettings.ts:5-7 | a body passes exactly when its theme is present and a non-empty string; the enum is not consulted |
| `BlogSettingsModel.SchemaAccepts` | models/blogSettings.ts:7 | the schema accepts a document exactly when its theme is "minty", "flatly" or "cosmo" |
| `UserModel.Info` | controllers/user.ts:109 | the client view carries the username and admin flag and no password |
| `UserModel.UsernameFilter` | controllers/user.ts:82 | `findOne({ username })`: a missing username becomes the empty filter, `null` matches nothing, a string matches that username |
| `UserModel.IdFilter` | middleware/checkIfAdmin.ts:7 | `findOne({ _id })`: a missing id becomes the empty filter, `null` matches nothing, an id matches that id |
| `UserModel.FindByIdFilter` | controllers/post.ts:23 | `findById`: only a present id matches anything |
| `UserModel.FindOne` | controllers/user.ts:82 | returns nothing exactly when no stored user matches, otherwise a matching user with no match stored before it |
| `UserModel.FindOneAnyIsFirst` | middleware/checkIfAdmin.ts:7 | the empty filter returns the first stored user |
| `UserModel.FindOneIsUnique` | controllers/user.ts:43 | in a well-formed collection (ids in insertion order, unique usernames) a username or id query returns the one user carrying it |
| `UserModel.FindOneAppend` | controllers/user.ts:64 | inserting a user changes no earlier answer and answers only queries that matched nothing before and match the new user |
| `UserModel.UserCollection.NextId` | controllers/user.ts:58-62 | a new document's id is the next position in insertion order, held by no stored user |
| `UserModel.UserCollection.Save` | controllers/user.ts:64 | the user, carrying the next id and a username not stored yet (the unique index on usernames refuses duplicates), is appended after all stored users, and the collection stays well-formed |
| `PostModel.PostCollection.Save` | controllers/post.ts:38 | the post is appended after all stored posts |
| `BlogSettingsModel.DefaultSettingsAreValid` | interfaces/blogSettings.ts:9-11 | the default settings pass `isIBlogSettings`, and their theme "minty" is in the schema enum and equals the schema default |
| `BlogSettingsModel.IsIBlogSettingsIgnoresEnum` | interfaces/blogSettings.ts:5-7 | a body with a string theme passes exactly when the theme is non-empty, so "darkly", outside the enum, passes; a missing or null theme fails |
| `BlogSettingsModel.AsBody` | interfaces/blogSettings.ts:1-3 | the body for a document carries its theme |
| `BlogSettingsModel.Apply` | controllers/blogSettings.ts:44 | `set(body)` gives the document the body's theme |
| `BlogSettingsModel.BlogSettingsCollection.constructor` | index.ts:25-27 | the collection starts with the given document, or none |
| `BlogSettingsModel.BlogSettingsCollection.Save` | controllers/blogSettings.ts:46 | the save succeeds exactly when the schema enum admits the theme; the stored document is then the new one, and otherwise the old one |
| `SessionStore.Session.constructor` | controllers/user.ts:124 | a new session holds no user id |
| `SessionStore.Session.Regenerate` | controllers/user.ts:140 | a regenerated session holds no user id |
| `AuthenticationGuard.CheckIfAuthenticated` | middleware/checkIfAuthenticated.ts:3-12 | passes the request on exactly when the session holds a user id, and otherwise answers 401 "You're not logged in."; it only reads the id |
| `AdminGuard.Decide` | middleware/checkIfAdmin.ts:10-21 | passes exactly when a user was found with `admin` true; no user gives 401 "Invalid credentials.", a non-admin 401 "Unauthorized." |
| `AdminGuard.CheckIfAdminAsWritten` | middleware/checkIfAdmin.ts:5-23 | with a session that never held an id, passes exactly when the first stored user is an admin; with any other session, answers as `CheckIfAdmin` |
| `AdminGuard.AnonymousPassesAdminGuardAsWritten` | middleware/checkIfAdmin.ts:7 | with one stored admin and a fresh session, the guard as written passes and the corrected guard answers 401 "Invalid credentials." |
| `AdminGuard.CheckIfAdmin` | middleware/checkIfAdmin.ts:5-23 | a session without an id, or with an id no user has, gets 401 "Invalid credentials."; passing implies a stored user with the session's id and `admin` true; every rejection is one of the two 401s |
| `AdminGuard.CheckIfAdminStoredUser` | middleware/checkIfAdmin.ts:15-21 | in a well-formed collection, a session naming a stored user passes exactly when that user's stored flag is set, and otherwise gets 401 "Unauthorized." |
| `UserController.NewUser` | controllers/user.ts:58-62 | the new record has a fresh id, the given username, `hash(password)` as its password and `admin` false |
| `UserController.Register` | controllers/user.ts:29-71 | invalid credentials give 422 with the validator's message; a taken username gives 409 "This username is already taken."; a falsy hash gives 500; in these cases the collection is unchanged. Otherwise it answers 201 "User created." and appends exactly one user with the username, the hash and `admin` false, whatever `admin` the body held. The collection stays well-formed and the session is not involved |
| `UserController.Login` | controllers/user.ts:76-116 | no user found, or a password that does not match the stored hash, gives 401 "Wrong username or password." (one answer for both) with the session unchanged; when a user is found but no password is given, `bcrypt.compare` rejects and no response is sent. On a match the session holds that user's id, the answer is 200 with `{ username, admin }` and no password, and `checkIfAuthenticated` then passes |
| `UserController.Logout` | controllers/user.ts:121-152 | a session without an id gives 204 with no body and is unchanged; otherwise the answer is 200 "Logged out." and the session holds no id. Either way `checkIfAuthenticated` rejects afterwards |
| `UserController.Ping` | controllers/user.ts:157-163 | answers 200 "Still logged in." whatever the session holds |
| `UserController.RegisteredUserCanLogIn` | controllers/user.ts:58-64 | after a registration appends its user, a login with that username finds that user, the registered password matches its hash, and `checkIfAdmin` answers 401 "Unauthorized." for it |
| `UserController.LoginWithoutUsernameChecksFirstUser` | controllers/user.ts:79-82 | a login body without a username looks up the first stored user |
| `PostController.SessionUser` | controllers/post.ts:23 | the author lookup finds a stored user with the session's id, and finds none when the session holds no id or no user has it |
| `PostController.NewPost` | controllers/post.ts:30-36 | the post takes the request's title, content and picture and the session user as author |
| `PostController.Create` | controllers/post.ts:8-49 | a missing or empty title or content gives 422 "One or more fields are missing." before the author is looked up, even without a session; an author not found gives 401 "???"; in both cases the posts are unchanged. Otherwise exactly one post is appended after the existing ones and returned with 201 |
| `PostController.GetAll` | controllers/post.ts:55-68 | answers 200 with every stored post in order; it only reads the collection |
| `BlogSettingsController.GetBlogSettings` | controllers/blogSettings.ts:10-23 | answers 500 exactly when no document exists, and otherwise 200 with the document; it only reads the collection |
| `BlogSettingsController.ChangeBlogSettings` | controllers/blogSettings.ts:28-55 | a body failing `isIBlogSettings` gives 422 "Invalid settings." with nothing changed, checked before the lookup; no document gives 500 and creates none; a theme the schema refuses gives 500 with the document unchanged; otherwise the document takes the body's theme and the 200 answer equals what `getBlogSettings` then returns |
| `BlogSettingsController.PatchBlogSettingsAsWritten` | routes/blogSettings.ts:8 | the route as wired: the update runs exactly when `checkIfAdmin` as written passes, with the outcome of `ChangeBlogSettings`; otherwise the guard's 401 is the answer and the settings are unchanged. A session holding no id therefore reaches the update when the first stored user is an admin |
| `BlogSettingsController.PatchBlogSettings` | routes/blogSettings.ts:8 | the route with the corrected guard: the update runs only when the corrected `checkIfAdmin` passes; otherwise the guard's 401 is the answer and the settings are unchanged, so a 200 implies the session names a stored admin |
| `Scenarios.RegisterTwice` | __tests__/routes/user.ts:40-56 | registering "user"/"pass" succeeds once and gives 409 the second time, leaving one non-admin user with the hashed password |

## Findings

| source | as written | input that shows it | evidently intended | confidence | as-written member | corrected member |
|---|---|---|---|---|---|---|
| middleware/checkIfAdmin.ts:7 | the admin lookup filters on the session's id even when the session has none; Mongoose treats a filter value of `undefined` as absent, so the query becomes `findOne({})` and returns an arbitrary stored user (the only one, in a store of one) | a PATCH of the blog settings from a client that never logged in, or that just logged out (logout regenerates the session), while the first stored user has `admin` true: the guard calls the handler | a session without a user id is answered with 401 "Invalid credentials." | medium, not executed; rests on Mongoose's documented handling of `undefined` in `findOne` filters | `AdminGuard.CheckIfAdminAsWritten`, used by `BlogSettingsController.PatchBlogSettingsAsWritten` (counterexamples: `AdminGuard.AnonymousPassesAdminGuardAsWritten`, `Scenarios.AnonymousSettingsChange`) | `AdminGuard.CheckIfAdmin`, used by `BlogSettingsController.PatchBlogSettings` |

## Left out

- Server bootstrap, configuration, CORS, static files and the database connection (app.ts, index.ts) are plumbing. The startup step that creates the default settings when none exist is the `BlogSettingsCollection` constructor's argument.
- Session store failures are external. This covers the error callbacks of `regenerate` and `save` in login and logout (controllers/user.ts:97-100, 105-107, 132-137, 140-144) and login's `!user._id` check, which a stored document always passes.
- Database failures are external I/O. This covers the `.catch` branches of the saves and finds in all three controllers, the falsy-document branch after the settings save (controllers/blogSettings.ts:48-50), and `checkIfAdmin`'s missing `.catch`. A schema refusal of the settings theme is modelled.
- Which document `findOne({})` returns is an abstraction choice. Mongoose documents it as an arbitrary document, in MongoDB's natural order. The model takes the first stored user in insertion order (`FindOne` with the `Any` filter).
- Concurrency is not modelled. Handlers run one at a time, so the check-then-insert race on usernames is not represented. Several clients are several `Session` objects.
- Only absent, `null` and string body fields are modelled. Numbers, booleans and objects in JSON bodies would meet JavaScript coercions the model does not follow.
- Document extras are not modelled: `_id` on posts and settings, timestamps, and the populated author that Mongoose includes when a post is sent back. `PostJson` carries the post with its author id.
- bcrypt internals are abstract. Salt, cost factor and randomness are not modelled; a hash is a function of the password alone.
- Image upload middleware (uploadAvatar.ts, uploadThumbnail.ts) involves file I/O, an image library and random file names.
- Routing glue is not modelled, except the admin guard in front of the settings update. Unknown routes are not modelled either.
- Logging to the console is not modelled.
