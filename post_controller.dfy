/** The post handlers: `create` and `getAll`. */
module PostController {
  import opened Wrappers
  import opened Js
  import opened UserModel
  import opened PostModel
  import opened SessionStore
  import opened Http

  /** The fields of a create request body. */
  datatype PostBody = PostBody(title: JsValue<string>, content: JsValue<string>, picture: JsValue<string>)

  const MissingFields: Response := Response(UnprocessableContent, Text("One or more fields are missing."))
  const UnknownAuthor: Response := Response(Unauthorized, Text("???"))

  /** The user `User.findById(req.session.userId)` returns. */
  function SessionUser(rows: seq<User>, userId: JsValue<UserId>): (u: Option<User>)
    ensures u.Some? ==> userId.Defined? && u.value in rows && u.value.id == userId.value
    ensures u.None? <==> !userId.Defined? || forall i :: 0 <= i < |rows| ==> rows[i].id != userId.value
  {
    FindOne(rows, FindByIdFilter(userId))
  }

  /** The post a valid body creates for its author. */
  function NewPost(body: PostBody, author: User): (p: Post)
    requires Truthy(body.title) && Truthy(body.content)
    ensures p.title == body.title.value && p.content == body.content.value
    ensures p.picture == body.picture && p.author == author.id
  {
    Post(body.title.value, author.id, body.content.value, body.picture)
  }

  /** The fields are checked before the author is looked up, so a missing
      field is reported even to a client with no session. */
  method Create(users: UserCollection, posts: PostCollection, session: Session, body: PostBody) returns (r: Response)
    modifies posts
    ensures !Truthy(body.title) || !Truthy(body.content) ==> r == MissingFields && posts.rows == old(posts.rows)
    ensures Truthy(body.title) && Truthy(body.content) ==>
      var author := SessionUser(users.rows, session.userId);
      if author.None? then
        r == UnknownAuthor && posts.rows == old(posts.rows)
      else
        var p := NewPost(body, author.value);
        r == Response(Created, PostJson(p)) && posts.rows == old(posts.rows) + [p]
  {
    if !Truthy(body.title) || !Truthy(body.content) {
      return MissingFields;
    }

    var user := FindOne(users.rows, FindByIdFilter(session.userId));
    if user.None? {
      return UnknownAuthor;
    }

    var newPost := Post(body.title.value, user.value.id, body.content.value, body.picture);
    posts.Save(newPost);
    r := Response(Created, PostJson(newPost));
  }

  /** `getAll`: every stored post, in insertion order. */
  function GetAll(posts: PostCollection): (r: Response)
    reads posts
    ensures r.Response? && r.status == OK && r.body.PostsJson?
    ensures |r.body.posts| == |posts.rows|
    ensures forall i :: 0 <= i < |posts.rows| ==> r.body.posts[i] == posts.rows[i]
  {
    Response(OK, PostsJson(posts.rows))
  }
}
