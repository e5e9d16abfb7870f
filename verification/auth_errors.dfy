/**
 * The structured OAuth protocol error: its fields, the default for `raw`,
 * and the message it carries.
 */
module AuthErrors {
  import opened Wrappers
  import opened PyValue
  import Strings

  /** Which `OAuthError` subclass: the step of the OAuth flow that failed. */
  datatype OAuthFlow = Authorization | TokenExchange | TokenRefresh | Revocation

  datatype OAuthError = OAuthError(
    flow: OAuthFlow,
    error: string,
    description: Option<string>,
    statusCode: Option<int>,
    raw: Value)

  const EmptyRaw := VObject(map[])

  /** `OAuthError.__init__`: the fields as given, with a falsy `raw` replaced by `{}`. */
  function NewOAuthError(flow: OAuthFlow, error: string, description: Option<string>, statusCode: Option<int>, raw: Option<Value>)
    : (e: OAuthError)
    ensures e.flow == flow && e.error == error && e.description == description && e.statusCode == statusCode
    ensures OptTruthy(raw) ==> e.raw == raw.value
    ensures !OptTruthy(raw) ==> e.raw == EmptyRaw
  {
    OAuthError(flow, error, description, statusCode, if OptTruthy(raw) then raw.value else EmptyRaw)
  }

  const MessagePrefix := "OAuth error: "

  /**
   * The separator before the description: an en dash as it reads after its
   * UTF-8 bytes were decoded as Windows-1252, which is how the source file
   * spells it.
   */
  const DescriptionSeparator := " \U{00E2}\U{20AC}\U{201C} "

  function HttpSuffix(status: int): string {
    " (HTTP " + Strings.IntToDecimal(status) + ")"
  }

  predicate HasDescription(d: Option<string>) {
    d.Some? && d.value != ""
  }

  /**
   * `_format_message`: the prefix and error code, then the separator and
   * description when the description is non-empty, then the HTTP suffix when
   * a status is present.
   */
  function FormatMessage(e: OAuthError): (msg: string)
    ensures |msg| == |MessagePrefix| + |e.error|
                     + (if HasDescription(e.description) then |DescriptionSeparator| + |e.description.value| else 0)
                     + (if e.statusCode.Some? then |HttpSuffix(e.statusCode.value)| else 0)
    ensures msg[..|MessagePrefix| + |e.error|] == MessagePrefix + e.error
    ensures e.statusCode.Some? ==> Strings.EndsWith(msg, HttpSuffix(e.statusCode.value))
    ensures e.statusCode.None? && HasDescription(e.description) ==>
              Strings.EndsWith(msg, DescriptionSeparator + e.description.value)
    ensures HasDescription(e.description) ==>
              var at := |MessagePrefix| + |e.error|;
              msg[at..at + |DescriptionSeparator| + |e.description.value|] == DescriptionSeparator + e.description.value
    ensures !HasDescription(e.description) ==>
              msg[|MessagePrefix| + |e.error|..] == if e.statusCode.Some? then HttpSuffix(e.statusCode.value) else ""
  {
    var head := MessagePrefix + e.error;
    var description := if HasDescription(e.description) then DescriptionSeparator + e.description.value else "";
    var suffix := if e.statusCode.Some? then HttpSuffix(e.statusCode.value) else "";
    ThreeParts(head, description, suffix);
    head + description + suffix
  }

  /** Where each of three concatenated parts sits. */
  lemma ThreeParts(a: string, b: string, c: string)
    ensures var s := a + b + c;
            && |s| == |a| + |b| + |c|
            && s[..|a|] == a
            && s[|a|..|a| + |b|] == b
            && s[|a| + |b|..] == c
            && (b == "" ==> s[|a|..] == c)
            && (c == "" ==> s[|s| - |b|..] == b)
  {
    var s := a + b + c;
    assert s[..|a|] == a;
    assert s[|a|..|a| + |b|] == b;
    assert s[|a| + |b|..] == c;
    if b == "" {
      assert s[|a|..] == c;
    }
    if c == "" {
      assert s[|s| - |b|..] == b;
    }
  }

  /** Reading the status back from the end of the message gives the status code. */
  lemma StatusReadsBack(e: OAuthError)
    requires e.statusCode.Some?
    ensures var msg := FormatMessage(e);
            var digits := msg[|msg| - |HttpSuffix(e.statusCode.value)| + 7..|msg| - 1];
            Strings.ParseInt(digits) == e.statusCode
  {
    StatusDigitsAtEnd(e);
    Strings.ParseIntOfDecimal(e.statusCode.value);
  }

  lemma MessageEndsWithSuffix(e: OAuthError)
    requires e.statusCode.Some?
    ensures var msg := FormatMessage(e);
            var suffix := HttpSuffix(e.statusCode.value);
            |suffix| <= |msg| && msg[|msg| - |suffix|..] == suffix
  {
  }

  /** The status digits sit between " (HTTP " and ")". */
  lemma SuffixHoldsDigits(status: int)
    ensures var suffix := HttpSuffix(status);
            suffix[7..|suffix| - 1] == Strings.IntToDecimal(status)
  {
  }

  lemma StatusDigitsAtEnd(e: OAuthError)
    requires e.statusCode.Some?
    ensures var msg := FormatMessage(e);
            var suffix := HttpSuffix(e.statusCode.value);
            msg[|msg| - |suffix| + 7..|msg| - 1] == Strings.IntToDecimal(e.statusCode.value)
  {
    var msg := FormatMessage(e);
    var suffix := HttpSuffix(e.statusCode.value);
    MessageEndsWithSuffix(e);
    SuffixHoldsDigits(e.statusCode.value);
    SliceOfTail(msg, suffix, 7, |suffix| - 1);
  }

  /** A slice of a string's tail is the same slice of the whole string, shifted. */
  lemma SliceOfTail(s: string, t: string, i: int, j: int)
    requires |t| <= |s| && s[|s| - |t|..] == t
    requires 0 <= i <= j <= |t|
    ensures s[|s| - |t| + i..|s| - |t| + j] == t[i..j]
  {
    var k := |s| - |t|;
    forall n | 0 <= n < j - i
      ensures s[k + i..k + j][n] == t[i..j][n]
    {
      assert s[k..][i + n] == t[i + n];
    }
  }
}
