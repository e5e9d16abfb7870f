/**
 * The OAuth token set: the invariants its constructor enforces, its expiry
 * arithmetic and its scope checks. Instants are integer Unix seconds.
 */
module Token {
  import opened Wrappers
  import Strings

  datatype TokenSet = TokenSet(
    accessToken: string,
    refreshToken: string,
    expiresAt: int,
    scope: string,
    tokenType: string,
    obtainedAt: int)

  /** Which construction check failed (`InvalidTokenError`). */
  datatype InvalidToken =
    | AccessTokenEmpty
    | RefreshTokenEmpty
    | ExpiresAtNotPositive
    | ScopeEmpty
    | ExpiresNotAfterObtained

  const DefaultTokenType := "bearer"

  /** What `__post_init__` demands of a token set. */
  predicate Valid(t: TokenSet) {
    && t.accessToken != ""
    && t.refreshToken != ""
    && t.expiresAt > 0
    && t.scope != ""
    && t.expiresAt > t.obtainedAt
  }

  /** `TokenSet.__post_init__`: the checks in the order they run. */
  function Check(t: TokenSet): (r: Outcome<InvalidToken>)
    ensures r.Pass? <==> Valid(t)
    ensures t.accessToken == "" ==> r == Fail(AccessTokenEmpty)
    ensures t.accessToken != "" && t.refreshToken == "" ==> r == Fail(RefreshTokenEmpty)
    ensures t.accessToken != "" && t.refreshToken != "" && t.expiresAt <= 0 ==> r == Fail(ExpiresAtNotPositive)
    ensures t.accessToken != "" && t.refreshToken != "" && t.expiresAt > 0 && t.scope == "" ==> r == Fail(ScopeEmpty)
    ensures r == Fail(ExpiresNotAfterObtained) <==>
              t.accessToken != "" && t.refreshToken != "" && t.expiresAt > 0 && t.scope != "" && t.expiresAt <= t.obtainedAt
  {
    if t.accessToken == "" then Fail(AccessTokenEmpty)
    else if t.refreshToken == "" then Fail(RefreshTokenEmpty)
    else if t.expiresAt <= 0 then Fail(ExpiresAtNotPositive)
    else if t.scope == "" then Fail(ScopeEmpty)
    else if t.expiresAt <= t.obtainedAt then Fail(ExpiresNotAfterObtained)
    else Pass
  }

  /** Constructing a `TokenSet`: the candidate itself, or the first failed check. */
  function MakeTokenSet(accessToken: string, refreshToken: string, expiresAt: int, scope: string, tokenType: string, obtainedAt: int)
    : (r: Result<TokenSet, InvalidToken>)
    ensures var t := TokenSet(accessToken, refreshToken, expiresAt, scope, tokenType, obtainedAt);
            (r.Success? <==> Valid(t)) && (r.Success? ==> r.value == t) && (r.Failure? ==> Check(t) == Fail(r.error))
  {
    var t := TokenSet(accessToken, refreshToken, expiresAt, scope, tokenType, obtainedAt);
    match Check(t)
    case Pass => Success(t)
    case Fail(e) => Failure(e)
  }

  // ---- Expiry ----

  const ExpirySkew := 60
  const RefreshSkew := 300

  /** `expires_in(now)`: seconds left, negative once past expiry. */
  function ExpiresIn(t: TokenSet, now: int): (r: int)
    ensures now + r == t.expiresAt
    ensures r < 0 <==> now > t.expiresAt
  {
    t.expiresAt - now
  }

  /** `is_expired(skew_seconds, now)`: from `skew` seconds before expiry onwards. */
  function IsExpired(t: TokenSet, skew: int, now: int): (r: bool)
    ensures r <==> now >= t.expiresAt - skew
  {
    ExpiresIn(t, now) <= skew
  }

  /** `requires_refresh(skew_seconds, now)`: the same test with its own default skew. */
  function RequiresRefresh(t: TokenSet, skew: int, now: int): (r: bool)
    ensures r <==> now >= t.expiresAt - skew
  {
    ExpiresIn(t, now) <= skew
  }

  /** With the default skews an expired token always needs a refresh, never the other way round. */
  lemma ExpiredNeedsRefresh(t: TokenSet, now: int)
    ensures IsExpired(t, ExpirySkew, now) ==> RequiresRefresh(t, RefreshSkew, now)
    ensures RequiresRefresh(t, RefreshSkew, t.expiresAt - RefreshSkew) && !IsExpired(t, ExpirySkew, t.expiresAt - RefreshSkew)
  {
  }

  /** Once expired or due for refresh, a token stays so at every later instant. */
  lemma ExpiryIsMonotone(t: TokenSet, skew: int, now: int, later: int)
    requires now <= later
    ensures IsExpired(t, skew, now) ==> IsExpired(t, skew, later)
    ensures RequiresRefresh(t, skew, now) ==> RequiresRefresh(t, skew, later)
  {
  }

  // ---- Scopes ----

  /** `scope_set()`: the whitespace-separated tokens of the scope string. */
  function ScopeSet(t: TokenSet): (r: set<string>)
    ensures forall w :: w in r <==> w in Strings.SplitWs(t.scope)
    ensures forall w :: w in r ==> Strings.IsWord(w)
  {
    set w | w in Strings.SplitWs(t.scope)
  }

  /** `has_scopes(required)`: every required scope is one of the token's. */
  function HasScopes(t: TokenSet, required: set<string>): (r: bool)
    ensures r <==> forall x :: x in required ==> x in Strings.SplitWs(t.scope)
  {
    required <= ScopeSet(t)
  }

  /** Nothing required is always held; a required "scope" containing whitespace never is. */
  lemma HasScopesEdges(t: TokenSet, required: set<string>, x: string)
    requires x in required && !Strings.IsWord(x)
    ensures HasScopes(t, {})
    ensures !HasScopes(t, required)
  {
  }

  /** A token whose scope string is space-joined words holds exactly those words. */
  lemma JoinedScopesAreHeld(t: TokenSet, words: seq<string>)
    requires forall i :: 0 <= i < |words| ==> Strings.IsWord(words[i])
    requires t.scope == Strings.JoinSpace(words)
    ensures ScopeSet(t) == set w | w in words
    ensures HasScopes(t, set w | w in words)
  {
    assert Strings.AllWords(words);
    Strings.SplitJoinRoundTrip(words);
  }
}
