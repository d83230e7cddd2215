/** The JSON answers the two controllers send, by HTTP status. Store and
    network failures (status 500) are not part of this model. */
module Responses {
  import opened Wrappers

  datatype Response<T> =
    | Ok(status: int, message: Option<string>, data: T)  // 200, or 201 on create
    | ValidationFailed(errors: seq<string>)              // 400 'Validation error', one message per failing field
    | DuplicateUrl                                       // 400, MongoDB duplicate-key error 11000
    | NotFound(reason: string)                           // 404, missing and foreign-owned alike
  {
    function Status(): int {
      match this
      case Ok(s, _, _) => s
      case ValidationFailed(_) => 400
      case DuplicateUrl => 400
      case NotFound(_) => 404
    }

    /** The `message` field of the answer, when it has one. */
    function Message(): Option<string> {
      match this
      case Ok(_, m, _) => m
      case ValidationFailed(_) => Some("Validation error")
      case DuplicateUrl => Some(DuplicateUrlMessage)
      case NotFound(m) => Some(m)
    }
  }

  const DuplicateUrlMessage := "You already have a bookmark with this URL"

  /** The answer of a list request: `{ success, count, data }`. */
  datatype ListResponse<T> = ListResponse(count: nat, data: seq<T>)
}
