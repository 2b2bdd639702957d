/** The Post entity and its collection. */
module PostModel {
  import opened Js
  import opened UserModel

  /** A stored post; `author` references the user who created it and
      `picture` is stored as the request gave it. */
  datatype Post = Post(title: string, author: UserId, content: string, picture: JsValue<string>)

  /** The posts collection, in insertion order. */
  class PostCollection {
    var rows: seq<Post>

    constructor ()
      ensures rows == []
    {
      rows := [];
    }

    /** `newPost.save()`: the document is inserted after all others. */
    method Save(p: Post)
      modifies this
      ensures rows == old(rows) + [p]
    {
      rows := rows + [p];
    }
  }
}
