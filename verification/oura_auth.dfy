/**
 * The OAuth lifecycle decisions of `OuraAuth`: scope normalisation and
 * configuration checks at construction, login-versus-refresh when an access
 * token is asked for, the scope string of the authorization URL, and
 * revocation. The stored token, the clock and the HTTP responses are inputs.
 */
module OuraAuth {
  import opened Wrappers
  import opened Token
  import opened OAuthHttp
  import opened Http
  import opened AuthErrors
  import TokenStorage
  import Strings

  /** What `AuthConfigurationError` reports. */
  datatype ConfigError =
    | UnknownScope(scope: string)
    | MissingClientId
    | MissingClientSecret
    | MissingRedirectUri
    | NoScopes

  const ApiScopePrefix := "extapi:"

  predicate IsApiScope(s: string) {
    ApiScopePrefix <= s
  }

  /**
   * `_normalize_scopes`: an "extapi:" scope is kept as it is, every other
   * scope is looked up in the alias table, and an unknown one fails. Python
   * walks the set in an unspecified order, so the unknown scope named is any
   * one of them.
   */
  ghost function NormalizeScopes(scopes: set<string>, aliases: map<string, string>): (r: Result<set<string>, ConfigError>)
    ensures r.Success? <==> forall s :: s in scopes && !IsApiScope(s) ==> s in aliases
    ensures r.Failure? ==> r.error.UnknownScope? && r.error.scope in scopes && !IsApiScope(r.error.scope) && r.error.scope !in aliases
    ensures r.Success? ==> forall x :: x in r.value <==>
              (x in scopes && IsApiScope(x)) || (exists s :: s in scopes && !IsApiScope(s) && s in aliases && aliases[s] == x)
  {
    var unknown := set s | s in scopes && !IsApiScope(s) && s !in aliases;
    if unknown != {} then
      var s :| s in unknown;
      Failure(UnknownScope(s))
    else
      assert forall s :: s in scopes && !IsApiScope(s) ==> s in aliases by {
        forall s | s in scopes && !IsApiScope(s)
          ensures s in aliases
        {
          assert s !in aliases ==> s in unknown;
        }
      }
      Success((set s | s in scopes && IsApiScope(s)) + (set s | s in scopes && !IsApiScope(s) :: aliases[s]))
  }

  /** `_validate_config`: the checks in the order they run. */
  function ValidateConfig(clientId: string, clientSecret: string, redirectUri: string, scopes: set<string>): (r: Outcome<ConfigError>)
    ensures r.Pass? <==> clientId != "" && clientSecret != "" && redirectUri != "" && scopes != {}
    ensures clientId == "" ==> r == Fail(MissingClientId)
    ensures clientId != "" && clientSecret == "" ==> r == Fail(MissingClientSecret)
    ensures clientId != "" && clientSecret != "" && redirectUri == "" ==> r == Fail(MissingRedirectUri)
    ensures clientId != "" && clientSecret != "" && redirectUri != "" && scopes == {} ==> r == Fail(NoScopes)
  {
    if clientId == "" then Fail(MissingClientId)
    else if clientSecret == "" then Fail(MissingClientSecret)
    else if redirectUri == "" then Fail(MissingRedirectUri)
    else if scopes == {} then Fail(NoScopes)
    else Pass
  }

  /** A constructed `OuraAuth`: the credentials and the normalised scopes. */
  datatype Auth = Auth(clientId: string, clientSecret: string, redirectUri: string, scopes: set<string>)

  /** `OuraAuth.__init__`: normalisation runs first, so an unknown scope is reported before any missing setting. */
  ghost function NewAuth(clientId: string, clientSecret: string, redirectUri: string, scopes: set<string>, aliases: map<string, string>)
    : (r: Result<Auth, ConfigError>)
    ensures NormalizeScopes(scopes, aliases).Failure? ==> r == Failure(NormalizeScopes(scopes, aliases).error)
    ensures NormalizeScopes(scopes, aliases).Success? ==>
              var normalized := NormalizeScopes(scopes, aliases).value;
              && (r.Success? <==> ValidateConfig(clientId, clientSecret, redirectUri, normalized).Pass?)
              && (r.Failure? ==> Fail(r.error) == ValidateConfig(clientId, clientSecret, redirectUri, normalized))
    ensures r.Success? ==> r.value.clientId != "" && r.value.clientSecret != "" && r.value.redirectUri != "" && r.value.scopes != {}
    ensures r.Success? ==> r.value.scopes == NormalizeScopes(scopes, aliases).value
  {
    var normalized :- NormalizeScopes(scopes, aliases);
    match ValidateConfig(clientId, clientSecret, redirectUri, normalized)
    case Fail(e) => Failure(e)
    case Pass => Success(Auth(clientId, clientSecret, redirectUri, normalized))
  }

  /** Why interactive login is needed (`LoginRequiredError`). */
  datatype LoginReason = NoStoredToken | ScopesNotSatisfied | RefreshRejected

  datatype AuthError =
    | LoginRequired(reason: LoginReason)
    | StorageFailed(storage: TokenStorage.StorageError)
    | RequestFailed(request: RequestError)

  /**
   * `_refresh_token`: a refresh rejected by the OAuth protocol means login is
   * required; network and other failures pass through.
   */
  ghost function RefreshToken(auth: Auth, t: TokenSet, now: int, resp: Option<HttpResponse>): (r: Result<TokenSet, AuthError>)
    ensures var h := RefreshAccessToken(t.refreshToken, auth.clientId, auth.clientSecret, resp, now);
            && (h.Success? <==> r.Success?)
            && (h.Success? ==> r.value == h.value && Valid(r.value) && r.value.obtainedAt == now)
            && (h.Failure? && h.error.OAuthFailure? ==> r == Failure(LoginRequired(RefreshRejected)))
            && (h.Failure? && !h.error.OAuthFailure? ==> r == Failure(RequestFailed(h.error)))
  {
    match RefreshAccessToken(t.refreshToken, auth.clientId, auth.clientSecret, resp, now)
    case Success(renewed) => Success(renewed)
    case Failure(OAuthFailure(e)) =>
      if e.flow == TokenRefresh then Failure(LoginRequired(RefreshRejected)) else Failure(RequestFailed(OAuthFailure(e)))
    case Failure(e) => Failure(RequestFailed(e))
  }

  /** What `get_access_token` returns or raises, and the token it saved if any. */
  datatype AccessOutcome = AccessOutcome(result: Result<string, AuthError>, saved: Option<TokenSet>)

  /**
   * `get_access_token` at time `now`, given what loading the storage gave and
   * the token endpoint's answer should a refresh be attempted.
   */
  ghost function GetAccessToken(auth: Auth, stored: Result<Option<TokenSet>, TokenStorage.StorageError>, now: int, resp: Option<HttpResponse>)
    : (r: AccessOutcome)
    ensures stored.Failure? ==> r == AccessOutcome(Failure(StorageFailed(stored.error)), None)
    ensures stored == Success(None) ==> r == AccessOutcome(Failure(LoginRequired(NoStoredToken)), None)
    ensures stored.Success? && stored.value.Some? && !HasScopes(stored.value.value, auth.scopes) ==>
              r == AccessOutcome(Failure(LoginRequired(ScopesNotSatisfied)), None)
    ensures stored.Success? && stored.value.Some? && HasScopes(stored.value.value, auth.scopes)
            && !RequiresRefresh(stored.value.value, RefreshSkew, now) ==>
              r == AccessOutcome(Success(stored.value.value.accessToken), None)
    ensures r.saved.Some? <==> (stored.Success? && stored.value.Some? && HasScopes(stored.value.value, auth.scopes)
                                && RequiresRefresh(stored.value.value, RefreshSkew, now) && r.result.Success?)
    ensures r.saved.Some? ==> r.result == Success(r.saved.value.accessToken) && Valid(r.saved.value) && r.saved.value.obtainedAt == now
  {
    match stored
    case Failure(e) => AccessOutcome(Failure(StorageFailed(e)), None)
    case Success(None) => AccessOutcome(Failure(LoginRequired(NoStoredToken)), None)
    case Success(Some(t)) =>
      if !HasScopes(t, auth.scopes) then AccessOutcome(Failure(LoginRequired(ScopesNotSatisfied)), None)
      else if !RequiresRefresh(t, RefreshSkew, now) then AccessOutcome(Success(t.accessToken), None)
      else
        match RefreshToken(auth, t, now, resp)
        case Success(renewed) => AccessOutcome(Success(renewed.accessToken), Some(renewed))
        case Failure(e) => AccessOutcome(Failure(e), None)
  }

  /**
   * A token saved by a refresh is read back from storage; asked again at the
   * same instant, the token is served from storage with no further request
   * when it holds the scopes and is not yet due for refresh.
   */
  lemma SavedTokenIsServedNext(auth: Auth, stored: Result<Option<TokenSet>, TokenStorage.StorageError>, now: int,
                               resp: Option<HttpResponse>, nextResp: Option<HttpResponse>)
    requires GetAccessToken(auth, stored, now, resp).saved.Some?
    requires var renewed := GetAccessToken(auth, stored, now, resp).saved.value;
             HasScopes(renewed, auth.scopes) && !RequiresRefresh(renewed, RefreshSkew, now)
    ensures var renewed := GetAccessToken(auth, stored, now, resp).saved.value;
            var reloaded := TokenStorage.Load(Some(Success(PyValue.VObject(TokenStorage.Serialize(renewed)))));
            GetAccessToken(auth, reloaded, now, nextResp) == AccessOutcome(Success(renewed.accessToken), None)
  {
    var renewed := GetAccessToken(auth, stored, now, resp).saved.value;
    TokenStorage.SaveThenLoad(renewed);
  }

  /** The `scope` parameter of the authorization URL: the sorted scopes joined by single spaces. */
  ghost function AuthorizationScope(auth: Auth): (r: string)
    ensures (forall s :: s in auth.scopes ==> Strings.IsWord(s)) ==> Strings.SplitWs(r) == Strings.SortedSet(auth.scopes)
  {
    var sorted := Strings.SortedSet(auth.scopes);
    if forall s :: s in auth.scopes ==> Strings.IsWord(s) then
      SortedScopesAreWords(auth);
      Strings.SplitJoinRoundTrip(sorted);
      Strings.JoinSpace(sorted)
    else Strings.JoinSpace(sorted)
  }

  lemma SortedScopesAreWords(auth: Auth)
    requires forall s :: s in auth.scopes ==> Strings.IsWord(s)
    ensures Strings.AllWords(Strings.SortedSet(auth.scopes))
  {
    var sorted := Strings.SortedSet(auth.scopes);
    forall i | 0 <= i < |sorted|
      ensures Strings.IsWord(sorted[i])
    {
      assert sorted[i] in auth.scopes;
    }
  }

  /**
   * A token granted with exactly the requested scope string holds every
   * required scope, so `get_access_token` accepts it without a new login.
   */
  lemma AuthorizationScopeIsHeld(auth: Auth, t: TokenSet)
    requires forall s :: s in auth.scopes ==> Strings.IsWord(s)
    requires t.scope == AuthorizationScope(auth)
    ensures ScopeSet(t) == auth.scopes
    ensures HasScopes(t, auth.scopes)
  {
    var sorted := Strings.SortedSet(auth.scopes);
    SortedScopesAreWords(auth);
    JoinedScopesAreHeld(t, sorted);
    assert (set w | w in sorted) == auth.scopes;
  }

  /** What `revoke` raised, if anything, and whether it cleared the storage. */
  datatype RevokeOutcome = RevokeOutcome(raised: Option<AuthError>, cleared: bool)

  /** `revoke`: best effort; the storage is cleared whenever a token was loaded, even if revocation fails. */
  ghost function Revoke(stored: Result<Option<TokenSet>, TokenStorage.StorageError>, resp: Option<HttpResponse>): (r: RevokeOutcome)
    ensures r.cleared <==> stored.Success? && stored.value.Some?
    ensures stored.Failure? ==> r == RevokeOutcome(Some(StorageFailed(stored.error)), false)
    ensures stored == Success(None) ==> r == RevokeOutcome(None, false)
    ensures stored.Success? && stored.value.Some? ==>
              match RevokeAccessToken(stored.value.value.accessToken, resp)
              case Pass => r.raised.None?
              case Fail(e) => r.raised == Some(RequestFailed(e))
  {
    match stored
    case Failure(e) => RevokeOutcome(Some(StorageFailed(e)), false)
    case Success(None) => RevokeOutcome(None, false)
    case Success(Some(t)) =>
      match RevokeAccessToken(t.accessToken, resp)
      case Pass => RevokeOutcome(None, true)
      case Fail(e) => RevokeOutcome(Some(RequestFailed(e)), true)
  }
}
