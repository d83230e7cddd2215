/** A JSON answer as the pages read it (`data.success`, `data.data`,
    `data.message`, `data.errors`), and the fall-backs they apply with `||`. */
module ClientReply {
  import opened Wrappers
  import opened Responses

  datatype Reply<T> = Reply(success: bool, data: Option<T>, message: Option<string>, errors: Option<seq<string>>)

  /** What a request ends in: an answer, or a thrown error (network failure,
      unreadable body) with its text. */
  datatype Outcome<T> = Answered(reply: Reply<T>) | Thrown(detail: string)

  /** The body a controller answer is serialised to. */
  function FromResponse<T>(r: Response<T>): (reply: Reply<T>)
    ensures reply.success <==> r.Ok?
    ensures reply.message == r.Message()
    ensures reply.errors.Some? <==> r.ValidationFailed?
    ensures r.ValidationFailed? ==> reply.errors == Some(r.errors)
    ensures r.Ok? ==> reply.data == Some(r.data)
  {
    match r
    case Ok(_, m, d) => Reply(true, Some(d), m, None)
    case ValidationFailed(es) => Reply(false, None, r.Message(), Some(es))
    case DuplicateUrl => Reply(false, None, r.Message(), None)
    case NotFound(_) => Reply(false, None, r.Message(), None)
  }

  /** `message || fallback`: an absent or empty message gives the fallback. */
  function MessageOr(message: Option<string>, fallback: string): (r: string)
    ensures message == None || message == Some("") ==> r == fallback
    ensures message.Some? && message.value != "" ==> r == message.value
  {
    if message.Some? && message.value != "" then message.value else fallback
  }

  /** `errors || fallback`: any array, even an empty one, is kept. */
  function ErrorsOr(errors: Option<seq<string>>, fallback: seq<string>): (r: seq<string>)
    ensures errors.None? ==> r == fallback
    ensures errors.Some? ==> r == errors.value
  {
    if errors.Some? then errors.value else fallback
  }

  /** `data.errors || [data.message || fallback]`: what the signup page and
      the note form show when the server refuses. */
  function RefusalErrors<T>(reply: Reply<T>, fallback: string): (r: seq<string>)
    ensures |r| >= 1 || reply.errors == Some([])
  {
    ErrorsOr(reply.errors, [MessageOr(reply.message, fallback)])
  }

  /** A refused create shows the controller's own messages: the per-field
      list for a validation failure, the one message otherwise. */
  lemma RefusalShowsServerMessages<T>(r: Response<T>, fallback: string)
    requires !r.Ok?
    requires r.NotFound? ==> r.reason != ""
    ensures r.ValidationFailed? ==> RefusalErrors(FromResponse(r), fallback) == r.errors
    ensures !r.ValidationFailed? ==> RefusalErrors(FromResponse(r), fallback) == [r.Message().value]
  {
    assert DuplicateUrlMessage[0] == 'Y';
  }
}
