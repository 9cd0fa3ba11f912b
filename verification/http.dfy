/** The JSON bodies and error responses the route handlers send. */
module Http {

  import opened Wrappers
  import opened Models

  datatype Body =
      /** `{ total, page, limit, items }`, from search and the favorites list. */
    | PageBody(total: int, page: int, limit: int, items: seq<Snippet>)
    | SnippetDoc(snippet: Snippet)
      /** `{ snippet, yourRating }`; `snippet` is null when no such snippet exists. */
    | Rated(ratedSnippet: Option<Snippet>, yourRating: int)
      /** `{ rating }`, null when the caller has not rated the snippet. */
    | UserRating(rating: Option<int>)
      /** `{ ok: true }` */
    | Ok

  /** The `code` of an error body. */
  datatype ErrorCode = Invalid | NotFound | AuthRequired | ServerError

  datatype Response = Json(body: Body) | Error(status: int, code: ErrorCode)

  /** A request without an Authorization header, stopped by the
      authentication middleware. */
  const Unauthorized: Response := Error(401, AuthRequired)
  const BadRequest: Response := Error(400, Invalid)
  const NotFoundResponse: Response := Error(404, NotFound)
  /** An exception passed to the error middleware, which has no status of its own. */
  const Failed: Response := Error(500, ServerError)
}
