/** What the page sees of an HTTP exchange: either an ok response with its
    parsed body, or a non-ok one with its status and the body's `message`
    field (absent when the body has none). */
module Http {
  import opened Results

  datatype Response<T> = Success(data: T) | Failure(status: int, message: Option<string>)

  /** The `HTTPError` the page throws: a status code and a message. */
  datatype HttpError = HttpError(status: int, message: string)

  /** `data.message || "Unknown error"`: the body's message when it is a
      non-empty string, the fallback text otherwise. */
  function ErrorMessage(message: Option<string>): (r: string)
    ensures r != ""
    ensures message.Some? && message.value != "" ==> r == message.value
    ensures (message.None? || message.value == "") ==> r == "Unknown error"
  {
    if message.Some? && message.value != "" then message.value else "Unknown error"
  }

  /** The error thrown for a non-ok response: it keeps the response's status,
      and its message is never empty, being the body's message when there is
      one and the fallback text otherwise. */
  function ErrorOf<T>(response: Response<T>): (e: HttpError)
    requires response.Failure?
    ensures e.status == response.status
    ensures e.message != ""
    ensures response.message.Some? && response.message.value != "" ==> e.message == response.message.value
    ensures response.message.None? || response.message.value == "" ==> e.message == "Unknown error"
  {
    HttpError(response.status, ErrorMessage(response.message))
  }
}
