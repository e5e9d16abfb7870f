/**
 * An HTTP response as the clients read it. The exchange itself is outside
 * the model: callers receive the response as a value.
 */
module Http {
  import opened Wrappers
  import opened PyValue

  /**
   * The status, the decoded JSON body (None where `.json()` raises) and the
   * text body (None where `.text` cannot be read).
   */
  datatype HttpResponse = HttpResponse(status: int, json: Option<Value>, text: Option<string>)

  /** A 2xx status. */
  predicate IsSuccessStatus(status: int) {
    200 <= status < 300
  }
}
