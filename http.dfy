/** Responses as the handlers send them. */
module Http {
  import opened UserModel
  import opened PostModel
  import opened BlogSettingsModel

  datatype Status =
    | OK | Created | NoContent | Unauthorized | Conflict | UnprocessableContent | InternalServerError
  {
    function Code(): (c: int)
      ensures 200 <= c < 600
    {
      match this
      case OK => 200
      case Created => 201
      case NoContent => 204
      case Unauthorized => 401
      case Conflict => 409
      case UnprocessableContent => 422
      case InternalServerError => 500
    }
  }

  /** A response body: a plain text message, a JSON `{ "error": ... }`
      object, a JSON document, or nothing (a 204 carries no body). */
  datatype Body =
    | Text(message: string)
    | ErrorJson(error: string)
    | UserInfoJson(info: UserInfo)
    | PostJson(post: Post)
    | PostsJson(posts: seq<Post>)
    | SettingsJson(settings: Settings)
    | Empty

  /** What a handler produces: a response, or a rejected promise that the
      handler itself never answers. */
  datatype Response =
    | Response(status: Status, body: Body)
    | Unhandled(reason: string)

  /** What a middleware decides: pass the request on to the next handler,
      or answer it itself. */
  datatype Guard = Next | Reject(response: Response)

  /** `serverError(res, ...)`: a 500 with a generic message. */
  const ServerError: Response := Response(InternalServerError, ErrorJson("Server error."))
}
