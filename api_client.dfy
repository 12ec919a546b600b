/** How the client components read a failed HTTP request (an axios error). */
module ApiClient {

  import opened Wrappers

  /** A failed request: the JSON body of the error response, when a response arrived. */
  datatype RequestFailure = RequestFailure(body: Option<map<string, string>>)

  /** `error.response?.data?.message`. */
  function ServerMessage(f: RequestFailure): Option<string> {
    if f.body.Some? && "message" in f.body.value then Some(f.body.value["message"]) else None
  }

  /** `error.response?.data?.message || fallback`: a missing or empty message gives the fallback. */
  function MessageOr(f: RequestFailure, fallback: string): (text: string)
    ensures ServerMessage(f).Some? && ServerMessage(f).value != "" ==> text == ServerMessage(f).value
    ensures ServerMessage(f).None? || ServerMessage(f).value == "" ==> text == fallback
  {
    match ServerMessage(f)
    case Some(m) => if m != "" then m else fallback
    case None => fallback
  }

  /** A response body without a `message` key, such as `{"detail": ...}`, gives the fallback. */
  lemma DetailBodyGivesFallback(detail: string, fallback: string)
    ensures MessageOr(RequestFailure(Some(map["detail" := detail])), fallback) == fallback
  {
  }
}
