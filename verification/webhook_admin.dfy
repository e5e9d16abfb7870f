/**
 * How the webhook subscription admin client treats response statuses.
 */
module WebhookAdmin {
  import opened Wrappers
  import opened PyValue
  import opened Http

  /** What escapes: `HTTPStatusError` from `raise_for_status`, or a body `.json()` cannot decode. */
  datatype WebhookError = HttpStatusError(status: int) | InvalidJson

  /**
   * `delete_subscription`: 204 and 404 mean deleted or already gone, every
   * 5xx is treated as success, other statuses of 400 or more raise, and the
   * rest return quietly.
   */
  function DeleteSubscription(status: int): (r: Outcome<WebhookError>)
    ensures r.Fail? <==> 400 <= status < 500 && status != 404
    ensures r.Fail? ==> r.error == HttpStatusError(status)
    ensures status in {204, 404} || status >= 500 ==> r.Pass?
  {
    if status in {204, 404} then Pass
    else if status >= 500 then Pass
    else if status >= 400 then Fail(HttpStatusError(status))
    else Pass
  }

  /**
   * `create_subscription`, `update_subscription` and `renew_subscription`
   * share this handling after the request: any status of 400 or more raises, else the decoded body.
   */
  function MutationOutcome(resp: HttpResponse): (r: Result<Value, WebhookError>)
    ensures resp.status >= 400 ==> r == Failure(HttpStatusError(resp.status))
    ensures r.Success? <==> resp.status < 400 && resp.json.Some?
    ensures r.Success? ==> r.value == resp.json.value
    ensures resp.status < 400 && resp.json.None? ==> r == Failure(InvalidJson)
  {
    if resp.status >= 400 then Failure(HttpStatusError(resp.status))
    else match resp.json
      case Some(v) => Success(v)
      case None => Failure(InvalidJson)
  }

  /**
   * Deletion tolerates exactly the statuses where the other operations
   * disagree with it: 404 and every 5xx raise for create, update and renew.
   */
  lemma DeleteIsMoreLenient(resp: HttpResponse)
    ensures MutationOutcome(resp).Failure? && MutationOutcome(resp).error.HttpStatusError? ==>
              (DeleteSubscription(resp.status).Pass? <==> resp.status == 404 || resp.status >= 500)
    ensures DeleteSubscription(resp.status).Fail? ==> MutationOutcome(resp) == Failure(DeleteSubscription(resp.status).error)
  {
  }
}
