/** The client's view of an HTTP exchange through axios: a call either
    resolves with the reply body or rejects with an error object that may
    carry the server's response. */
module Wire {
  import opened Maybe
  import opened Api

  /** `error.response`: the status and JSON body of a non-2xx reply. */
  datatype ErrorResponse = ErrorResponse(status: int, data: Reply)

  /** An axios error: `code`, `response` when the server answered, and
      whether a request went out (`error.request`). */
  datatype HttpError = HttpError(code: string, response: Option<ErrorResponse>, requestMade: bool)

  /** An awaited request: resolved with a value or thrown. */
  datatype Call<+T> = Ok(value: T) | Err(error: HttpError)

  const ConnectionRefused: string := "ECONNREFUSED"

  /** How axios settles a server response: 2xx resolves with the body, 4xx and
      5xx reject with `ERR_BAD_REQUEST` and `ERR_BAD_RESPONSE`. */
  function Receive(r: Response): (c: Call<Reply>)
    ensures c.Ok? <==> 200 <= r.status < 300
    ensures c.Ok? ==> c.value == r.reply
    ensures c.Err? ==> c.error.response == Some(ErrorResponse(r.status, r.reply)) && c.error.code != ConnectionRefused
  {
    if 200 <= r.status < 300 then Ok(r.reply)
    else if r.status < 500 then Err(HttpError("ERR_BAD_REQUEST", Some(ErrorResponse(r.status, r.reply)), true))
    else Err(HttpError("ERR_BAD_RESPONSE", Some(ErrorResponse(r.status, r.reply)), true))
  }

  /** `data.message`, for the reply shapes that carry one. */
  function MessageOf(data: Reply): Option<string> {
    match data
    case Failure(m) => Some(m)
    case Rejected(m, _) => m
    case Confirmed(m) => Some(m)
    case _ => None
  }

  /** `value || fallback` for an optional string: absent and empty both fall back. */
  function OrElse(value: Option<string>, fallback: string): (r: string)
    ensures value.Some? && value.value != "" ==> r == value.value
    ensures (value.None? || value.value == "") ==> r == fallback
  {
    if value.Some? && value.value != "" then value.value else fallback
  }

  /** `error.response?.status === 401`: the condition every list and form
      action uses to send the user back to the login page. */
  predicate SessionExpired(e: HttpError) {
    e.response.Some? && e.response.value.status == 401
  }

  /** `error.response?.data?.message`. */
  function ResponseMessage(e: HttpError): Option<string> {
    if e.response.Some? then MessageOf(e.response.value.data) else None
  }
}
