/**
 * The token file's record format: turning a token set into the six-key JSON
 * object that is written, reading such an object back, and how `load`
 * reports every way reading can fail.
 */
module TokenStorage {
  import opened Wrappers
  import opened PyValue
  import opened Token

  const AccessTokenKey := "access_token"
  const RefreshTokenKey := "refresh_token"
  const ExpiresAtKey := "expires_at"
  const ScopeKey := "scope"
  const TokenTypeKey := "token_type"
  const ObtainedAtKey := "obtained_at"

  const RecordKeys: set<string> := {AccessTokenKey, RefreshTokenKey, ExpiresAtKey, ScopeKey, TokenTypeKey, ObtainedAtKey}

  /** `_serialize_token`. */
  function Serialize(t: TokenSet): (r: map<string, Value>)
    ensures r.Keys == RecordKeys
    ensures r[AccessTokenKey] == VStr(t.accessToken) && r[RefreshTokenKey] == VStr(t.refreshToken)
    ensures r[ExpiresAtKey] == VInt(t.expiresAt) && r[ObtainedAtKey] == VInt(t.obtainedAt)
    ensures r[ScopeKey] == VStr(t.scope) && r[TokenTypeKey] == VStr(t.tokenType)
  {
    map[AccessTokenKey := VStr(t.accessToken),
        RefreshTokenKey := VStr(t.refreshToken),
        ExpiresAtKey := VInt(t.expiresAt),
        ScopeKey := VStr(t.scope),
        TokenTypeKey := VStr(t.tokenType),
        ObtainedAtKey := VInt(t.obtainedAt)]
  }

  /** What `_parse_token_data` raises. */
  datatype ParseError =
    | KeyMissing(key: string)
    | NotAnObject
    | NotAString(key: string)
    | BadInteger(error: PyError)
    | Rejected(reason: InvalidToken)

  function Required(data: map<string, Value>, key: string): (r: Result<Value, ParseError>)
    ensures r.Success? <==> key in data
    ensures r.Success? ==> r.value == data[key]
    ensures r.Failure? ==> r.error == KeyMissing(key)
  {
    if key in data then Success(data[key]) else Failure(KeyMissing(key))
  }

  function StringField(key: string, v: Value): (r: Result<string, ParseError>)
    ensures r.Success? <==> v.VStr?
    ensures r.Success? ==> r.value == v.s
  {
    if v.VStr? then Success(v.s) else Failure(NotAString(key))
  }

  function IntField(v: Value): (r: Result<int, ParseError>)
    ensures r.Success? <==> ToInt(v).Success?
    ensures r.Success? ==> r.value == ToInt(v).value
  {
    match ToInt(v)
    case Success(i) => Success(i)
    case Failure(e) => Failure(BadInteger(e))
  }

  /** `_parse_token_data`: the fields in source order, then the token set's own checks. */
  function ParseTokenData(data: Value): (r: Result<TokenSet, ParseError>)
    ensures !data.VObject? ==> r == Failure(NotAnObject)
    ensures data.VObject? && AccessTokenKey !in data.fields ==> r == Failure(KeyMissing(AccessTokenKey))
    ensures r.Success? ==> Valid(r.value)
    ensures r.Success? ==> var f := data.fields;
              && AccessTokenKey in f && RefreshTokenKey in f && ScopeKey in f && ExpiresAtKey in f
              && f[AccessTokenKey] == VStr(r.value.accessToken)
              && f[RefreshTokenKey] == VStr(r.value.refreshToken)
              && f[ScopeKey] == VStr(r.value.scope)
              && ToInt(f[ExpiresAtKey]) == Success(r.value.expiresAt)
              && (TokenTypeKey in f ==> f[TokenTypeKey] == VStr(r.value.tokenType))
              && (TokenTypeKey !in f ==> r.value.tokenType == DefaultTokenType)
              && (ObtainedAtKey in f ==> ToInt(f[ObtainedAtKey]) == Success(r.value.obtainedAt))
    // Without "obtained_at" the expiry doubles as the obtained time, which the invariant forbids.
    ensures data.VObject? && ObtainedAtKey !in data.fields ==> r.Failure?
  {
    if !data.VObject? then Failure(NotAnObject)
    else
      var f := data.fields;
      var accessRaw :- Required(f, AccessTokenKey);
      var access :- StringField(AccessTokenKey, accessRaw);
      var refreshRaw :- Required(f, RefreshTokenKey);
      var refresh :- StringField(RefreshTokenKey, refreshRaw);
      var expiresRaw :- Required(f, ExpiresAtKey);
      var expiresAt :- IntField(expiresRaw);
      var scopeRaw :- Required(f, ScopeKey);
      var scope :- StringField(ScopeKey, scopeRaw);
      var tokenType :- if TokenTypeKey in f then StringField(TokenTypeKey, f[TokenTypeKey]) else Success(DefaultTokenType);
      var obtainedAt :- IntField(if ObtainedAtKey in f then f[ObtainedAtKey] else expiresRaw);
      match MakeTokenSet(access, refresh, expiresAt, scope, tokenType, obtainedAt)
      case Success(t) => Success(t)
      case Failure(e) => Failure(Rejected(e))
  }

  /** Every valid token set is read back unchanged from what is written for it. */
  lemma ParseSerializeRoundTrip(t: TokenSet)
    requires Valid(t)
    ensures ParseTokenData(VObject(Serialize(t))) == Success(t)
  {
  }

  /**
   * Why `load` raised: `AuthStorageError` for an unreadable file or a
   * parse failure it catches, or the OverflowError of `int()` on an
   * infinite float, which is not among the exceptions it catches.
   */
  datatype StorageError = ReadFailed | Corrupted(cause: ParseError) | Uncaught(error: PyError)

  /**
   * `FileTokenStorage.load`, with the file supplied: None when it does not
   * exist, Failure when it cannot be read or decoded, else the decoded value.
   */
  function Load(file: Option<Result<Value, ()>>): (r: Result<Option<TokenSet>, StorageError>)
    ensures file.None? <==> r == Success(None)
    ensures file.Some? && file.value.Failure? ==> r == Failure(ReadFailed)
    ensures file.Some? && file.value.Success? ==>
              match ParseTokenData(file.value.value)
              case Success(t) => r == Success(Some(t))
              case Failure(e) => r == Failure(if e == BadInteger(OverflowError) then Uncaught(OverflowError) else Corrupted(e))
    ensures r.Failure? && r.error.Uncaught? ==> r.error.error == OverflowError
    ensures r.Success? && r.value.Some? ==> Valid(r.value.value)
  {
    match file
    case None => Success(None)
    case Some(Failure(_)) => Failure(ReadFailed)
    case Some(Success(data)) =>
      match ParseTokenData(data)
      case Success(t) => Success(Some(t))
      case Failure(BadInteger(OverflowError)) => Failure(Uncaught(OverflowError))
      case Failure(e) => Failure(Corrupted(e))
  }

  /**
   * An expiry stored as an infinite float escapes `load` as OverflowError,
   * while one stored as NaN is reported as a corrupted file.
   */
  lemma NonFiniteExpiry(access: string, refresh: string)
    ensures var f := map[AccessTokenKey := VStr(access), RefreshTokenKey := VStr(refresh)];
            && Load(Some(Success(VObject(f[ExpiresAtKey := VFloat("inf", Infinite)])))) == Failure(Uncaught(OverflowError))
            && Load(Some(Success(VObject(f[ExpiresAtKey := VFloat("nan", NotANumber)])))) == Failure(Corrupted(BadInteger(ValueError)))
  {
    var f := map[AccessTokenKey := VStr(access), RefreshTokenKey := VStr(refresh)];
    assert ParseTokenData(VObject(f[ExpiresAtKey := VFloat("inf", Infinite)])) == Failure(BadInteger(OverflowError));
    assert ParseTokenData(VObject(f[ExpiresAtKey := VFloat("nan", NotANumber)])) == Failure(BadInteger(ValueError));
  }

  /** Saving a valid token and loading the file gives the same token back. */
  lemma SaveThenLoad(t: TokenSet)
    requires Valid(t)
    ensures Load(Some(Success(VObject(Serialize(t))))) == Success(Some(t))
  {
    ParseSerializeRoundTrip(t);
  }
}
