/**
 * The decision logic of the OAuth token endpoint calls: the input guards,
 * how a response is classified, how a token set is built from a JSON
 * payload, and the helpers that bound what an error carries. The HTTP
 * exchange itself is a parameter: the response, or None for a network error.
 */
module OAuthHttp {
  import opened Wrappers
  import opened PyValue
  import opened Token
  import opened AuthErrors
  import opened Http
  import Strings

  // ---------------------------------------------------------------------------
  // Bounded diagnostics
  // ---------------------------------------------------------------------------

  const SnippetLimit := 500
  const UnreadableBody := "<unreadable response body>"

  /** `_safe_body_snippet`: at most `limit` leading characters of the body. */
  function SafeBodySnippet(resp: HttpResponse, limit: nat): (r: string)
    ensures resp.text.None? ==> r == UnreadableBody
    ensures resp.text.Some? ==> |r| <= limit && |r| <= |resp.text.value| && r == resp.text.value[..|r|]
    ensures resp.text.Some? && |resp.text.value| <= limit ==> r == resp.text.value
  {
    match resp.text
    case None => UnreadableBody
    case Some(text) => if |text| <= limit then text else text[..limit]
  }

  /** The raw value kept for a body that is not a JSON object. */
  function TextRaw(resp: HttpResponse): Value {
    VObject(map["text" := VStr(SafeBodySnippet(resp, SnippetLimit))])
  }

  const KeyLimit := 50
  const TruncatedKey := "__truncated__"
  const TotalKeysKey := "__total_keys__"

  lemma {:induction false} SortedCardinality(s: seq<string>)
    requires Strings.StrictlySorted(s)
    ensures |set x | x in s| == |s|
  {
    if s != [] {
      SortedCardinality(s[1..]);
      assert (set x | x in s) == {s[0]} + (set x | x in s[1..]);
      Strings.LessIrreflexive(s[0]);
      assert s[0] !in s[1..] by {
        forall j | 0 <= j < |s[1..]|
          ensures s[1..][j] != s[0]
        {
          assert Strings.Less(s[0], s[j + 1]);
        }
      }
    }
  }

  /** The `limit` smallest keys of a dict that has more than `limit` of them. */
  ghost function KeptKeys(payload: map<string, Value>, limit: nat): (r: set<string>)
    requires |payload| > limit
    ensures r <= payload.Keys && |r| == limit
    ensures forall k, j :: k in r && j in payload && j !in r ==> Strings.Less(k, j)
  {
    var sorted := Strings.SortedSet(payload.Keys);
    var r := set k | k in sorted[..limit];
    SortedCardinality(sorted[..limit]);
    PrefixPrecedesRest(sorted, limit);
    r
  }

  /** In a strictly sorted list, every element of a prefix comes before every element outside it. */
  lemma PrefixPrecedesRest(sorted: seq<string>, limit: nat)
    requires Strings.StrictlySorted(sorted) && limit <= |sorted|
    ensures forall k, j :: k in sorted[..limit] && j in sorted && j !in sorted[..limit] ==> Strings.Less(k, j)
  {
    forall k, j | k in sorted[..limit] && j in sorted && j !in sorted[..limit]
      ensures Strings.Less(k, j)
    {
      var a :| 0 <= a < limit && sorted[a] == k;
      var b :| 0 <= b < |sorted| && sorted[b] == j;
      assert b >= limit;
    }
  }

  /** The dict restricted to `keys`. */
  function Restrict(payload: map<string, Value>, keys: set<string>): (r: map<string, Value>)
    requires keys <= payload.Keys
    ensures r.Keys == keys
    ensures forall k :: k in r ==> r[k] == payload[k]
  {
    map k | k in keys :: payload[k]
  }

  /** The two marker entries added to a truncated dict. */
  function WithMarkers(kept: map<string, Value>, total: nat): (r: map<string, Value>)
    ensures TruncatedKey in r && r[TruncatedKey] == VBool(true)
    ensures TotalKeysKey in r && r[TotalKeysKey] == VInt(total)
    ensures forall k :: k in kept && k != TruncatedKey && k != TotalKeysKey ==> k in r && r[k] == kept[k]
    ensures forall k :: k in r ==> k in kept || k == TruncatedKey || k == TotalKeysKey
    ensures |r| <= |kept| + 2
  {
    var r := kept[TruncatedKey := VBool(true)][TotalKeysKey := VInt(total)];
    assert |kept[TruncatedKey := VBool(true)]| <= |kept| + 1;
    r
  }

  /**
   * `_safe_payload` on a dict: unchanged up to `limit` keys; otherwise the
   * `limit` smallest keys with their values, then the two marker keys.
   */
  ghost function SafePayload(payload: map<string, Value>, limit: nat): (r: map<string, Value>)
    ensures |payload| <= limit ==> r == payload
    ensures |payload| > limit ==> r == WithMarkers(Restrict(payload, KeptKeys(payload, limit)), |payload|)
    ensures |payload| > limit ==> |r| <= limit + 2
  {
    if |payload| <= limit then payload
    else WithMarkers(Restrict(payload, KeptKeys(payload, limit)), |payload|)
  }

  /**
   * What escapes raw, not as an OAuth error: the failures of `_safe_payload`
   * on a non-object, and the OverflowError of `int()` on an infinite
   * "expires_in", which the handler around `_token_set_from_payload` does
   * not list.
   */
  datatype RawError = RawTypeError | RawAttributeError | RawOverflowError

  /**
   * `_safe_payload` applied, as `_token_request` does, to whatever JSON a
   * 2xx body decoded to: `len()` raises on a number, a boolean or null, and
   * a list or string longer than the limit has no `keys()`.
   */
  ghost function SafePayloadOfAny(payload: Value, limit: nat): (r: Result<Value, RawError>)
    ensures Length(payload).None? ==> r == Failure(RawTypeError)
    ensures payload.VObject? ==> r == Success(VObject(SafePayload(payload.fields, limit)))
    ensures Length(payload).Some? && !payload.VObject? ==>
              r == if Length(payload).value <= limit then Success(payload) else Failure(RawAttributeError)
  {
    match payload
    case VObject(f) => Success(VObject(SafePayload(f, limit)))
    case VStr(text) => if |text| <= limit then Success(payload) else Failure(RawAttributeError)
    case VArray(items) => if |items| <= limit then Success(payload) else Failure(RawAttributeError)
    case _ => Failure(RawTypeError)
  }

  /** A value whose length is within the limit comes back unchanged, whatever its kind. */
  lemma SmallPayloadUnchanged(payload: Value, limit: nat)
    requires Length(payload).Some? && Length(payload).value <= limit
    ensures SafePayloadOfAny(payload, limit) == Success(payload)
  {
    if payload.VObject? {
      assert SafePayload(payload.fields, limit) == payload.fields;
    }
  }

  // ---------------------------------------------------------------------------
  // Error bodies
  // ---------------------------------------------------------------------------

  datatype OAuthErrorBody = OAuthErrorBody(error: Option<string>, description: Option<string>, raw: Value)

  const ErrorDescriptionKey := "error_description"
  const ErrorDescriptionSpaced := "error description"

  /**
   * `_extract_oauth_error`: "error" and "error_description" (falling back to
   * "error description") from a JSON object body; nothing but the text
   * snippet otherwise.
   */
  ghost function ExtractOAuthError(resp: HttpResponse): (r: OAuthErrorBody)
    ensures !(resp.json.Some? && resp.json.value.VObject?) ==> r == OAuthErrorBody(None, None, TextRaw(resp))
    ensures resp.json.Some? && resp.json.value.VObject? ==>
              var f := resp.json.value.fields;
              && (r.error.Some? <==> OptTruthy(Get(f, "error")))
              && (r.error.Some? ==> r.error.value == ToStr(f["error"]))
              && (r.description.Some? <==> OptTruthy(Get(f, ErrorDescriptionKey)) || OptTruthy(Get(f, ErrorDescriptionSpaced)))
              && (r.description.Some? && OptTruthy(Get(f, ErrorDescriptionKey)) ==> r.description.value == ToStr(f[ErrorDescriptionKey]))
              && (r.description.Some? && !OptTruthy(Get(f, ErrorDescriptionKey)) ==> r.description.value == ToStr(f[ErrorDescriptionSpaced]))
              && r.raw == VObject(SafePayload(f, KeyLimit))
  {
    match resp.json
    case Some(VObject(f)) =>
      var err := Get(f, "error");
      var desc := Or(Get(f, ErrorDescriptionKey), Get(f, ErrorDescriptionSpaced));
      OAuthErrorBody(
        if OptTruthy(err) then Some(ToStr(err.value)) else None,
        if OptTruthy(desc) then Some(ToStr(desc.value)) else None,
        VObject(SafePayload(f, KeyLimit)))
    case _ => OAuthErrorBody(None, None, TextRaw(resp))
  }

  // ---------------------------------------------------------------------------
  // Token payloads
  // ---------------------------------------------------------------------------

  /** Why `_token_set_from_payload` raised. */
  datatype PayloadError = NotAMapping | KeyMissing(key: string) | BadExpiresIn(error: PyError) | Rejected(reason: InvalidToken)

  function Field(f: map<string, Value>, key: string): (r: Result<Value, PayloadError>)
    ensures r.Success? <==> key in f
    ensures r.Success? ==> r.value == f[key]
  {
    if key in f then Success(f[key]) else Failure(KeyMissing(key))
  }

  /**
   * `_token_set_from_payload` at time `now`: the expiry is `now` plus
   * "expires_in", the token is obtained `now`, the string fields go through
   * `str()` and the token type defaults to "bearer".
   */
  function TokenSetFromPayload(payload: Value, now: int): (r: Result<TokenSet, PayloadError>)
    ensures !payload.VObject? ==> r == Failure(NotAMapping)
    ensures r.Success? ==> var f := payload.fields;
              && "expires_in" in f && "access_token" in f && "refresh_token" in f && "scope" in f
              && ToInt(f["expires_in"]).Success?
              && r.value.expiresAt == now + ToInt(f["expires_in"]).value
              && r.value.obtainedAt == now
              && r.value.accessToken == ToStr(f["access_token"])
              && r.value.refreshToken == ToStr(f["refresh_token"])
              && r.value.scope == ToStr(f["scope"])
              && r.value.tokenType == (if "token_type" in f then ToStr(f["token_type"]) else DefaultTokenType)
              && Valid(r.value)
    ensures (payload.VObject? && "expires_in" in payload.fields && ToInt(payload.fields["expires_in"]).Success?
             && ToInt(payload.fields["expires_in"]).value <= 0) ==> r.Failure?
    ensures r == Failure(BadExpiresIn(OverflowError)) <==>
              payload.VObject? && "expires_in" in payload.fields
              && payload.fields["expires_in"].VFloat? && payload.fields["expires_in"].float.Infinite?
  {
    if !payload.VObject? then Failure(NotAMapping)
    else
      var f := payload.fields;
      var expiresRaw :- Field(f, "expires_in");
      var expiresIn :- match ToInt(expiresRaw)
                       case Success(i) => Success(i)
                       case Failure(e) => Failure(BadExpiresIn(e));
      var access :- Field(f, "access_token");
      var refresh :- Field(f, "refresh_token");
      var scope :- Field(f, "scope");
      var tokenType := if "token_type" in f then ToStr(f["token_type"]) else DefaultTokenType;
      match MakeTokenSet(ToStr(access), ToStr(refresh), now + expiresIn, ToStr(scope), tokenType, now)
      case Success(t) => Success(t)
      case Failure(e) => Failure(Rejected(e))
  }

  // ---------------------------------------------------------------------------
  // Token requests
  // ---------------------------------------------------------------------------

  datatype RequestError = OAuthFailure(oauth: OAuthError) | NetworkFailure | Raw(raw: RawError)

  const InvalidResponse := "invalid_response"

  function MissingCredentials(flow: OAuthFlow): OAuthError {
    NewOAuthError(flow, "invalid_client", Some("Missing client_id/client_secret"), None, None)
  }

  /** The non-2xx branch shared by both versions of `_token_request`. */
  ghost function TokenErrorFromResponse(flow: OAuthFlow, resp: HttpResponse): (e: OAuthError)
    ensures e.flow == flow && e.statusCode == Some(resp.status)
    ensures var body := ExtractOAuthError(resp);
            && (body.error.Some? && body.error.value != "" ==> e.error == body.error.value)
            && ((body.error.None? || body.error.value == "") ==> e.error == "token_request_failed")
  {
    var body := ExtractOAuthError(resp);
    NewOAuthError(flow,
      if body.error.Some? && body.error.value != "" then body.error.value else "token_request_failed",
      Some(if body.description.Some? && body.description.value != "" then body.description.value else SafeBodySnippet(resp, SnippetLimit)),
      Some(resp.status), Some(body.raw))
  }

  /**
   * `_token_request` as written. On a 2xx response whose JSON is not a valid
   * token set, the payload goes through `_safe_payload` before the OAuth
   * error is raised, so a body that is not a JSON object can escape as a
   * raw TypeError or AttributeError instead.
   */
  ghost function TokenRequestAsWritten(flow: OAuthFlow, clientId: string, clientSecret: string, resp: Option<HttpResponse>, now: int)
    : (r: Result<TokenSet, RequestError>)
    ensures clientId == "" || clientSecret == "" ==> r == Failure(OAuthFailure(MissingCredentials(flow)))
    ensures r.Success? ==> resp.Some? && IsSuccessStatus(resp.value.status) && Valid(r.value) && r.value.obtainedAt == now
  {
    if clientId == "" || clientSecret == "" then Failure(OAuthFailure(MissingCredentials(flow)))
    else if resp.None? then Failure(NetworkFailure)
    else
      var rsp := resp.value;
      if IsSuccessStatus(rsp.status) then
        match rsp.json
        case None =>
          Failure(OAuthFailure(NewOAuthError(flow, InvalidResponse, Some("Token endpoint returned non-JSON response"),
                                             Some(rsp.status), Some(TextRaw(rsp)))))
        case Some(payload) =>
          match TokenSetFromPayload(payload, now)
          case Success(t) => Success(t)
          case Failure(BadExpiresIn(OverflowError)) => Failure(Raw(RawOverflowError))
          case Failure(_) =>
            match SafePayloadOfAny(payload, KeyLimit)
            case Failure(raw) => Failure(Raw(raw))
            case Success(kept) =>
              Failure(OAuthFailure(NewOAuthError(flow, InvalidResponse, Some("Token endpoint JSON did not contain a valid token set"),
                                                 Some(rsp.status), Some(kept))))
      else Failure(OAuthFailure(TokenErrorFromResponse(flow, rsp)))
  }

  /**
   * `_token_request` as evidently intended: every 2xx response that does not
   * yield a valid token set raises "invalid_response"; a body that is not a
   * JSON object is kept as its text snippet, as `_extract_oauth_error` does.
   */
  ghost function TokenRequest(flow: OAuthFlow, clientId: string, clientSecret: string, resp: Option<HttpResponse>, now: int)
    : (r: Result<TokenSet, RequestError>)
    ensures clientId == "" || clientSecret == "" ==> r == Failure(OAuthFailure(MissingCredentials(flow)))
    ensures clientId != "" && clientSecret != "" && resp.None? ==> r == Failure(NetworkFailure)
    ensures r.Failure? && r.error.Raw? ==> r.error.raw == RawOverflowError
    ensures r.Success? <==> clientId != "" && clientSecret != "" && resp.Some? && IsSuccessStatus(resp.value.status)
                            && resp.value.json.Some? && TokenSetFromPayload(resp.value.json.value, now).Success?
    ensures r.Success? ==> r.value == TokenSetFromPayload(resp.value.json.value, now).value
    ensures clientId != "" && clientSecret != "" && resp.Some? && IsSuccessStatus(resp.value.status) && r.Failure? && !r.error.Raw? ==>
              r.error.OAuthFailure? && r.error.oauth.error == InvalidResponse && r.error.oauth.statusCode == Some(resp.value.status)
    ensures clientId != "" && clientSecret != "" && resp.Some? && !IsSuccessStatus(resp.value.status) ==>
              r == Failure(OAuthFailure(TokenErrorFromResponse(flow, resp.value)))
  {
    if clientId == "" || clientSecret == "" then Failure(OAuthFailure(MissingCredentials(flow)))
    else if resp.None? then Failure(NetworkFailure)
    else
      var rsp := resp.value;
      if IsSuccessStatus(rsp.status) then
        match rsp.json
        case None =>
          Failure(OAuthFailure(NewOAuthError(flow, InvalidResponse, Some("Token endpoint returned non-JSON response"),
                                             Some(rsp.status), Some(TextRaw(rsp)))))
        case Some(payload) => TokenFromPayload(flow, rsp, payload, now)
      else Failure(OAuthFailure(TokenErrorFromResponse(flow, rsp)))
  }

  /**
   * The corrected handling of a 2xx body that decoded to `payload`: the
   * token set, the OverflowError the handler does not catch, or
   * "invalid_response" with the status.
   */
  ghost function TokenFromPayload(flow: OAuthFlow, rsp: HttpResponse, payload: Value, now: int): (r: Result<TokenSet, RequestError>)
    ensures r.Success? <==> TokenSetFromPayload(payload, now).Success?
    ensures r.Success? ==> r.value == TokenSetFromPayload(payload, now).value
    ensures r == Failure(Raw(RawOverflowError)) <==> TokenSetFromPayload(payload, now) == Failure(BadExpiresIn(OverflowError))
    ensures r.Failure? && r.error.Raw? ==> r.error.raw == RawOverflowError
    ensures r.Failure? && !r.error.Raw? ==>
              r.error.OAuthFailure? && r.error.oauth.error == InvalidResponse && r.error.oauth.statusCode == Some(rsp.status)
  {
    match TokenSetFromPayload(payload, now)
    case Success(t) => Success(t)
    case Failure(BadExpiresIn(OverflowError)) => Failure(Raw(RawOverflowError))
    case Failure(_) =>
      var raw := if payload.VObject? then VObject(SafePayload(payload.fields, KeyLimit)) else TextRaw(rsp);
      Failure(OAuthFailure(NewOAuthError(flow, InvalidResponse, Some("Token endpoint JSON did not contain a valid token set"),
                                         Some(rsp.status), Some(raw))))
  }

  /**
   * The one raw error left: a 2xx token payload whose "expires_in" is an
   * infinite float, and nothing else, escapes as OverflowError.
   */
  lemma TokenRequestOverflowsOnlyOnInfiniteExpiry(flow: OAuthFlow, clientId: string, clientSecret: string, resp: Option<HttpResponse>, now: int)
    ensures TokenRequest(flow, clientId, clientSecret, resp, now) == Failure(Raw(RawOverflowError)) <==>
              clientId != "" && clientSecret != "" && resp.Some? && IsSuccessStatus(resp.value.status) && resp.value.json.Some?
              && var payload := resp.value.json.value;
                 payload.VObject? && "expires_in" in payload.fields
                 && payload.fields["expires_in"].VFloat? && payload.fields["expires_in"].float.Infinite?
  {
    TokenRequestRawOverflow(flow, clientId, clientSecret, resp, now);
  }

  lemma TokenRequestRawOverflow(flow: OAuthFlow, clientId: string, clientSecret: string, resp: Option<HttpResponse>, now: int)
    ensures TokenRequest(flow, clientId, clientSecret, resp, now) == Failure(Raw(RawOverflowError)) <==>
              clientId != "" && clientSecret != "" && resp.Some? && IsSuccessStatus(resp.value.status) && resp.value.json.Some?
              && TokenSetFromPayload(resp.value.json.value, now) == Failure(BadExpiresIn(OverflowError))
  {
  }

  /** The two versions agree on every input except a 2xx body that is JSON but not an object. */
  lemma TokenRequestAgreesOnObjects(flow: OAuthFlow, clientId: string, clientSecret: string, resp: Option<HttpResponse>, now: int)
    requires resp.Some? && IsSuccessStatus(resp.value.status) && resp.value.json.Some? ==> resp.value.json.value.VObject?
    ensures TokenRequestAsWritten(flow, clientId, clientSecret, resp, now) == TokenRequest(flow, clientId, clientSecret, resp, now)
  {
  }

  /** A 200 response whose body is the JSON number 7: a raw TypeError as written, "invalid_response" as intended. */
  lemma TokenRequestNumberBody(flow: OAuthFlow, now: int)
    ensures var resp := Some(HttpResponse(200, Some(VInt(7)), Some("7")));
            && TokenRequestAsWritten(flow, "id", "secret", resp, now) == Failure(Raw(RawTypeError))
            && TokenRequest(flow, "id", "secret", resp, now).error.OAuthFailure?
            && TokenRequest(flow, "id", "secret", resp, now).error.oauth.error == InvalidResponse
  {
  }

  // ---------------------------------------------------------------------------
  // Public entry points
  // ---------------------------------------------------------------------------

  const InvalidRequest := "invalid_request"

  /** `exchange_code_for_tokens`: an empty code is refused before any request. */
  ghost function ExchangeCodeForTokens(code: string, clientId: string, clientSecret: string, resp: Option<HttpResponse>, now: int)
    : (r: Result<TokenSet, RequestError>)
    ensures code == "" ==> r == Failure(OAuthFailure(NewOAuthError(TokenExchange, InvalidRequest, Some("Missing authorization code"), None, None)))
    ensures code != "" ==> r == TokenRequest(TokenExchange, clientId, clientSecret, resp, now)
    ensures r.Failure? && r.error.OAuthFailure? ==> r.error.oauth.flow == TokenExchange
  {
    if code == "" then Failure(OAuthFailure(NewOAuthError(TokenExchange, InvalidRequest, Some("Missing authorization code"), None, None)))
    else TokenRequest(TokenExchange, clientId, clientSecret, resp, now)
  }

  /** `refresh_access_token`: an empty refresh token is refused before any request. */
  ghost function RefreshAccessToken(refreshToken: string, clientId: string, clientSecret: string, resp: Option<HttpResponse>, now: int)
    : (r: Result<TokenSet, RequestError>)
    ensures refreshToken == "" ==> r == Failure(OAuthFailure(NewOAuthError(TokenRefresh, InvalidRequest, Some("Missing refresh_token"), None, None)))
    ensures refreshToken != "" ==> r == TokenRequest(TokenRefresh, clientId, clientSecret, resp, now)
    ensures r.Failure? && r.error.OAuthFailure? ==> r.error.oauth.flow == TokenRefresh
  {
    if refreshToken == "" then Failure(OAuthFailure(NewOAuthError(TokenRefresh, InvalidRequest, Some("Missing refresh_token"), None, None)))
    else TokenRequest(TokenRefresh, clientId, clientSecret, resp, now)
  }

  /** `revoke_access_token`: any 2xx is success; otherwise an OAuth revocation error. */
  ghost function RevokeAccessToken(accessToken: string, resp: Option<HttpResponse>): (r: Outcome<RequestError>)
    ensures accessToken == "" ==> r == Fail(OAuthFailure(NewOAuthError(Revocation, InvalidRequest, Some("Missing access_token"), None, None)))
    ensures accessToken != "" && resp.None? ==> r == Fail(NetworkFailure)
    ensures r.Pass? <==> accessToken != "" && resp.Some? && IsSuccessStatus(resp.value.status)
    ensures r.Fail? && r.error.OAuthFailure? ==> r.error.oauth.flow == Revocation
    ensures accessToken != "" && resp.Some? && !IsSuccessStatus(resp.value.status) ==>
              r.Fail? && r.error.OAuthFailure? && r.error.oauth.statusCode == Some(resp.value.status)
              && (ExtractOAuthError(resp.value).error.None? ==> r.error.oauth.error == "revocation_failed")
  {
    if accessToken == "" then Fail(OAuthFailure(NewOAuthError(Revocation, InvalidRequest, Some("Missing access_token"), None, None)))
    else if resp.None? then Fail(NetworkFailure)
    else if IsSuccessStatus(resp.value.status) then Pass
    else
      var body := ExtractOAuthError(resp.value);
      Fail(OAuthFailure(NewOAuthError(Revocation,
        if body.error.Some? && body.error.value != "" then body.error.value else "revocation_failed",
        Some(if body.description.Some? && body.description.value != "" then body.description.value else SafeBodySnippet(resp.value, SnippetLimit)),
        Some(resp.value.status), Some(body.raw))))
  }
}
