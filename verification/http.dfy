/** What one HTTP exchange can yield, and httpx's
    `raise_for_status(); return response.json()` idiom over it. */
module Http {
  import opened Base

  /** A JSON document the model does not look inside, kept as its text. */
  datatype Json = Json(text: string)

  /** A response body: decodable JSON of the expected shape, or raw text. */
  datatype Body<T> = Parsed(value: T) | Unparsable(text: string)

  /** The final outcome of a call, after the client's timeout retries. */
  datatype Reply<T> = Response(status: int, body: Body<T>) | TimedOut

  /** httpx treats exactly the 2xx codes as success. */
  predicate IsSuccess(status: int) {
    200 <= status <= 299
  }

  /** `response.raise_for_status()` followed by `response.json()`. */
  function Decode<T>(reply: Reply<T>): (r: Result<T>)
    ensures r.Ok? <==> reply.Response? && IsSuccess(reply.status) && reply.body.Parsed?
    ensures r.Ok? ==> r.value == reply.body.value
    ensures reply.TimedOut? ==> r == Err(Timeout)
    ensures reply.Response? && !IsSuccess(reply.status) ==> r == Err(HttpStatus(reply.status))
  {
    match reply
    case TimedOut => Err(Timeout)
    case Response(status, body) =>
      if !IsSuccess(status) then Err(HttpStatus(status))
      else match body
        case Parsed(v) => Ok(v)
        case Unparsable(_) => Err(InvalidJson)
  }
}
