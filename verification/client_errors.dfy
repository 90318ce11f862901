/**
 * A failed request as the components see it: the HTTP client's error
 * object, with `error.response?.data?.message` and `error.message`.
 */
module ClientErrors {
  import opened Wrappers
  import opened Http

  /**
   * `dataMessage` is `error.response?.data?.message`; `message` is the HTTP
   * client's own text (for a rejected status, a sentence naming the status).
   */
  datatype RequestError = RequestError(dataMessage: Option<string>, message: string)

  /**
   * The error a server failure turns into on the routes whose error bodies
   * name their text `error` (every route but the user list and the user
   * statistics, whose 500 bodies use `message`): `data.message` is missing.
   */
  function FromFailure<T>(r: Response<T>, clientMessage: string): (e: RequestError)
    requires r.Failure?
    ensures e.dataMessage.None? && e.message == clientMessage
  {
    RequestError(None, clientMessage)
  }

  predicate Truthy(v: Option<string>) {
    v.Some? && v.value != ""
  }
}
