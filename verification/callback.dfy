/**
 * The OAuth redirect validator of the local callback server: how one
 * request's path and query parameters are checked, what the server records,
 * and what `wait_for_callback` reports once the single request is served.
 */
module Callback {
  import opened Wrappers

  /** Parsed query parameters: each name with the list of its values. */
  type Params = map<string, seq<string>>

  datatype CallbackError =
    | UnexpectedPath(path: string)
    | StateMismatch
    | MultipleValues(name: string)
    | UserDeniedConsent
    | OAuthErrorParam(error: Option<string>)
    | MissingCode
    | NoCallbackReceived

  /** `_get_single_param`: absent or empty means None; more than one value raises. */
  function GetSingleParam(params: Params, name: string): (r: Result<Option<string>, CallbackError>)
    ensures (name !in params || params[name] == []) <==> r == Success(None)
    ensures name in params && |params[name]| == 1 <==> r.Success? && r.value.Some?
    ensures r.Success? && r.value.Some? ==> r.value.value == params[name][0]
    ensures r.Failure? <==> name in params && |params[name]| > 1
    ensures r.Failure? ==> r.error == MultipleValues(name)
  {
    if name !in params || params[name] == [] then Success(None)
    else if |params[name]| != 1 then Failure(MultipleValues(name))
    else Success(Some(params[name][0]))
  }

  const AccessDenied := "access_denied"

  /** `_handle_callback`: the authorization code, or the error it raises. */
  function HandleCallback(expectedPath: string, expectedState: string, path: string, params: Params): (r: Result<string, CallbackError>)
    ensures path != expectedPath ==> r == Failure(UnexpectedPath(path))
    ensures path == expectedPath && GetSingleParam(params, "state").Success? && GetSingleParam(params, "state").value != Some(expectedState)
            ==> r == Failure(StateMismatch)
    ensures path == expectedPath && GetSingleParam(params, "state") == Success(Some(expectedState)) && "error" in params ==>
              r.Failure? && match GetSingleParam(params, "error")
                            case Failure(e) => r.error == e
                            case Success(err) => (r.error == UserDeniedConsent <==> err == Some(AccessDenied))
                                                 && (err != Some(AccessDenied) ==> r.error == OAuthErrorParam(err))
    ensures r.Success? <==>
              && path == expectedPath
              && GetSingleParam(params, "state") == Success(Some(expectedState))
              && "error" !in params
              && "code" in params && |params["code"]| == 1 && params["code"][0] != ""
    ensures r.Success? ==> r.value == params["code"][0]
  {
    if path != expectedPath then Failure(UnexpectedPath(path))
    else
      var state :- GetSingleParam(params, "state");
      if state != Some(expectedState) then Failure(StateMismatch)
      else if "error" in params then
        var error :- GetSingleParam(params, "error");
        if error == Some(AccessDenied) then Failure(UserDeniedConsent)
        else Failure(OAuthErrorParam(error))
      else
        var code :- GetSingleParam(params, "code");
        if code.None? || code.value == "" then Failure(MissingCode)
        else Success(code.value)
  }

  /** What the server object holds after a request: `_result` and `_error`. */
  datatype ServerState = ServerState(result: Option<string>, error: Option<CallbackError>)

  const Initial := ServerState(None, None)

  /**
   * The server after handling one request: every error `_handle_callback`
   * raises itself is recorded; the duplicate-parameter error comes from the
   * helper and is not.
   */
  function HandleRequest(s: ServerState, expectedPath: string, expectedState: string, path: string, params: Params): (r: ServerState)
    ensures var h := HandleCallback(expectedPath, expectedState, path, params);
            && (h.Success? ==> r == s.(result := Some(h.value)))
            && (h.Failure? && !h.error.MultipleValues? ==> r == s.(error := Some(h.error)))
            && (h.Failure? && h.error.MultipleValues? ==> r == s)
  {
    match HandleCallback(expectedPath, expectedState, path, params)
    case Success(code) => s.(result := Some(code))
    case Failure(e) => if e.MultipleValues? then s else s.(error := Some(e))
  }

  /** How the browser is answered. */
  datatype Response = Complete | Cancelled | ErrorPage

  /** `do_GET`: success page, cancellation page for a denial, error page for every other validation error. */
  function ResponseTo(h: Result<string, CallbackError>): (r: Response)
    ensures r == Complete <==> h.Success?
    ensures r == Cancelled <==> h == Failure(UserDeniedConsent)
  {
    match h
    case Success(_) => Complete
    case Failure(UserDeniedConsent) => Cancelled
    case Failure(_) => ErrorPage
  }

  /** `wait_for_callback` after serving: a recorded error, else the result, else "no callback". */
  function WaitForCallback(s: ServerState): (r: Result<string, CallbackError>)
    ensures s.error.Some? ==> r == Failure(s.error.value)
    ensures s.error.None? ==> (r.Success? <==> s.result.Some?)
    ensures s.error.None? && s.result.Some? ==> r == Success(s.result.value)
    ensures s.error.None? && s.result.None? ==> r == Failure(NoCallbackReceived)
  {
    if s.error.Some? then Failure(s.error.value)
    else if s.result.None? then Failure(NoCallbackReceived)
    else Success(s.result.value)
  }

  /**
   * One request served from a fresh server: the caller gets what the
   * validator decided, except that a duplicated parameter surfaces as
   * "No OAuth callback received".
   */
  lemma OneRequestFlow(expectedPath: string, expectedState: string, path: string, params: Params)
    ensures var h := HandleCallback(expectedPath, expectedState, path, params);
            var w := WaitForCallback(HandleRequest(Initial, expectedPath, expectedState, path, params));
            && (h.Success? ==> w == h)
            && (h.Failure? && !h.error.MultipleValues? ==> w == h)
            && (h.Failure? && h.error.MultipleValues? ==> w == Failure(NoCallbackReceived))
  {
  }

  /** A code only ever reaches the caller through a request that passed every check. */
  lemma CodeOnlyFromValidRequest(expectedPath: string, expectedState: string, path: string, params: Params)
    requires WaitForCallback(HandleRequest(Initial, expectedPath, expectedState, path, params)).Success?
    ensures path == expectedPath && params["state"] == [expectedState]
    ensures "error" !in params && params["code"] == [WaitForCallback(HandleRequest(Initial, expectedPath, expectedState, path, params)).value]
  {
    var h := HandleCallback(expectedPath, expectedState, path, params);
    assert h.Success?;
    assert |params["state"]| == 1;
  }
}
