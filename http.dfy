/**
 * The outcome of one HTTP GET made with the `requests` library, as the fetching
 * code sees it: either a response, or one of the exceptions raised instead.
 */
module Http {
  import opened Wrappers

  const OK := 200
  const CREATED := 201
  const BAD_REQUEST := 400
  /** Section 4 of RFC 6585. */
  const TOO_MANY_REQUESTS := 429
  const INTERNAL_SERVER_ERROR := 500
  const SERVICE_UNAVAILABLE := 503

  /**
   * `retryAfter` is the delay-seconds form of the Retry-After header
   * (section 10.2.3 of RFC 9110) when the response carries one; `body` is the
   * parsed JSON payload of type `J`.
   */
  datatype Outcome<J> =
    | Response(status: int, retryAfter: Option<nat>, body: J)
    | ConnectionError     // requests.exceptions.ConnectionError
    | Timeout             // requests.exceptions.Timeout
    | OtherRequestError   // any other requests.exceptions.RequestException
}
