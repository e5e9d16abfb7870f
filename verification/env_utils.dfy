/**
 * `_parse_env_bool`: reading a boolean flag from an environment variable,
 * whose value (or absence) is given.
 */
module EnvUtils {
  import opened Wrappers
  import Strings

  const TrueWords: set<string> := {"true", "1", "yes", "on"}
  const FalseWords: set<string> := {"false", "0", "no", "off"}

  lemma WordsDisjoint(v: string)
    ensures !(v in TrueWords && v in FalseWords)
  {
    if v in TrueWords {
      assert v == "true" || v == "1" || v == "yes" || v == "on";
      assert v[0] in {'t', '1', 'y', 'o'} && |v| in {1, 2, 3, 4};
    }
  }

  /** The ValueError for a value that is neither, carrying the normalised value. */
  datatype EnvError = InvalidBoolean(key: string, value: string)

  /** How a value is compared: surrounding whitespace removed, then lower-cased. */
  function Normalize(v: string): string {
    Strings.Lower(Strings.Strip(v))
  }

  function ParseEnvBool(key: string, env: Option<string>, default: bool): (r: Result<bool, EnvError>)
    ensures env.None? ==> r == Success(default)
    ensures env.Some? ==> (r == Success(true) <==> Normalize(env.value) in TrueWords)
    ensures env.Some? ==> (r == Success(false) <==> Normalize(env.value) in FalseWords)
    ensures env.Some? ==> (r.Failure? <==> Normalize(env.value) !in TrueWords + FalseWords)
    ensures r.Failure? ==> r.error == InvalidBoolean(key, Normalize(env.value))
  {
    match env
    case None => Success(default)
    case Some(raw) =>
      var v := Normalize(raw);
      WordsDisjoint(v);
      if v in TrueWords then Success(true)
      else if v in FalseWords then Success(false)
      else Failure(InvalidBoolean(key, v))
  }

  /** The documented default when the caller gives none. */
  const DefaultFlag := true

  /** An unset variable reads as the default, and the empty string is not a boolean. */
  lemma UnsetAndEmpty(key: string, default: bool)
    ensures ParseEnvBool(key, None, DefaultFlag) == Success(true)
    ensures ParseEnvBool(key, Some(""), default) == Failure(InvalidBoolean(key, ""))
  {
    assert Normalize("") == "" by {
      assert Strings.Strip("") == "";
    }
    assert "" !in TrueWords + FalseWords;
  }

  /**
   * An accepted word in any ASCII letter case, surrounded by any whitespace,
   * reads as that word does.
   */
  lemma PaddedAnyCaseIsAccepted(key: string, default: bool, left: string, v: string, right: string)
    requires forall i :: 0 <= i < |left| ==> Strings.IsSpace(left[i])
    requires forall i :: 0 <= i < |right| ==> Strings.IsSpace(right[i])
    requires Strings.Lower(v) in TrueWords + FalseWords
    ensures ParseEnvBool(key, Some(left + v + right), default) == Success(Strings.Lower(v) in TrueWords)
  {
    var w := Strings.Lower(v);
    assert v != [];
    assert Strings.LowerChar(v[0]) == w[0] && Strings.LowerChar(v[|v| - 1]) == w[|w| - 1];
    Strings.StripPadded(left, v, right);
  }
}
