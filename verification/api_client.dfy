/**
 * The Oura API client's error mapping: which typed error each HTTP status
 * raises, the message it carries, and the success/failure split of a request.
 */
module ApiClient {
  import opened Wrappers
  import opened PyValue

  /** The concrete class raised, from the `OuraApiError` hierarchy. */
  datatype ApiErrorKind =
    | BadRequest
    | Unauthorized
    | Forbidden
    | NotFound
    | Conflict
    | RateLimited
    | OtherClientError
    | ServerError
    | BaseApiError

  /** `isinstance(e, OuraClientError)`: the 4xx subclasses, which do not include rate limiting. */
  predicate IsClientError(k: ApiErrorKind) {
    k in {BadRequest, Unauthorized, Forbidden, NotFound, Conflict, OtherClientError}
  }

  /** The class `_raise_for_status` picks for a status. */
  function ClassifyStatus(status: int): (k: ApiErrorKind)
    ensures k == BadRequest <==> status == 400
    ensures k == Unauthorized <==> status == 401
    ensures k == Forbidden <==> status == 403
    ensures k == NotFound <==> status == 404
    ensures k == Conflict <==> status == 409
    ensures k == RateLimited <==> status == 429
    ensures k == OtherClientError <==> 400 <= status < 500 && status !in {400, 401, 403, 404, 409, 429}
    ensures k == ServerError <==> status >= 500
    ensures k == BaseApiError <==> status < 400
  {
    if status == 400 then BadRequest
    else if status == 401 then Unauthorized
    else if status == 403 then Forbidden
    else if status == 404 then NotFound
    else if status == 409 then Conflict
    else if status == 429 then RateLimited
    else if 400 <= status < 500 then OtherClientError
    else if status >= 500 then ServerError
    else BaseApiError
  }

  /** Every 4xx status except 429 raises a client error, and nothing else does. */
  lemma ClientErrorsAreExactly4xx(status: int)
    ensures IsClientError(ClassifyStatus(status)) <==> 400 <= status < 500 && status != 429
  {
  }

  const DefaultMessage := "Oura API error"

  /**
   * The message of the raised error: the payload's "error", else its
   * "message", else the default. None where a truthy payload that is not a
   * dict makes `payload.get` raise AttributeError.
   */
  function ErrorMessage(payload: Option<Value>): (r: Option<Value>)
    ensures !OptTruthy(payload) ==> r == Some(VStr(DefaultMessage))
    ensures OptTruthy(payload) && !payload.value.VObject? ==> r.None?
    ensures OptTruthy(payload) && payload.value.VObject? ==>
              var f := payload.value.fields;
              && r.Some?
              && (OptTruthy(Get(f, "error")) ==> r.value == f["error"])
              && (!OptTruthy(Get(f, "error")) && OptTruthy(Get(f, "message")) ==> r.value == f["message"])
              && (!OptTruthy(Get(f, "error")) && !OptTruthy(Get(f, "message")) ==> r.value == VStr(DefaultMessage))
    ensures r.Some? ==> Truthy(r.value)
  {
    if !OptTruthy(payload) then Some(VStr(DefaultMessage))
    else match payload.value
      case VObject(f) =>
        var chosen := Or(Get(f, "error"), Get(f, "message"));
        if OptTruthy(chosen) then chosen else Some(VStr(DefaultMessage))
      case _ => None
  }

  /** A raised `OuraApiError`. */
  datatype ApiError = ApiError(kind: ApiErrorKind, statusCode: int, message: Value, response: Option<Value>, requestId: Option<string>)

  /** What escapes `_raise_for_status`: the typed error, or the AttributeError of a non-dict payload. */
  datatype ApiFailure = Typed(error: ApiError) | PayloadNotADict

  /**
   * `_raise_for_status`. Its result type has no success case: for every
   * status it raises.
   */
  function RaiseForStatus(status: int, payload: Option<Value>, requestId: Option<string>): (r: ApiFailure)
    ensures r.PayloadNotADict? <==> ErrorMessage(payload).None?
    ensures r.Typed? ==> r.error.kind == ClassifyStatus(status) && r.error.statusCode == status
    ensures r.Typed? ==> r.error.message == ErrorMessage(payload).value && r.error.response == payload && r.error.requestId == requestId
  {
    match ErrorMessage(payload)
    case None => PayloadNotADict
    case Some(message) => Typed(ApiError(ClassifyStatus(status), status, message, payload, requestId))
  }

  /**
   * `_request_async` after the response is received: a status of 400 or more
   * always raises; otherwise the payload, with a missing or empty body read as {}.
   */
  function RequestOutcome(status: int, payload: Option<Value>, requestId: Option<string>): (r: Result<Value, ApiFailure>)
    ensures r.Success? <==> status < 400
    ensures r.Failure? ==> r.error == RaiseForStatus(status, payload, requestId)
    ensures r.Success? && OptTruthy(payload) ==> r.value == payload.value
    ensures r.Success? && !OptTruthy(payload) ==> r.value == VObject(map[])
  {
    if status >= 400 then Failure(RaiseForStatus(status, payload, requestId))
    else Success(if OptTruthy(payload) then payload.value else VObject(map[]))
  }

  /** A failed request with a dict payload always raises an error of the class its status selects. */
  lemma FailedRequestIsTyped(status: int, fields: map<string, Value>, requestId: Option<string>)
    requires status >= 400
    ensures var r := RequestOutcome(status, Some(VObject(fields)), requestId);
            r.Failure? && r.error.Typed? && r.error.error.kind == ClassifyStatus(status)
            && r.error.error.kind != BaseApiError
  {
  }
}
