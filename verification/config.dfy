/**
 * The validating setters of the configuration singleton and where the Oura
 * client credentials come from. Environment lookups are parameters.
 */
module Config {
  import opened Wrappers
  import opened PyValue
  import Strings

  /**
   * The settings the setters touch. `debug` starts as whatever the DEBUG
   * variable held (or False), so it is a value rather than a boolean; the
   * client id and secret are whatever the YAML file gave, if anything.
   */
  datatype Settings = Settings(
    logLevel: string,
    debug: Value,
    configPath: Option<string>,
    ouraClientId: Option<Value>,
    ouraClientSecret: Option<Value>)

  /** The ValueError a setter raises; the settings are then left as they were. */
  datatype SettingError = LogLevelNotAString | InvalidLogLevel(level: string) | DebugNotABool | ConfigPathNotAString

  const AllowedLevels: set<string> := {"DEBUG", "INFO", "WARNING", "ERROR", "CRITICAL"}

  /** The `log_level` setter: upper-cased, then checked against the allowed names. */
  function SetLogLevel(c: Settings, value: Value): (r: Result<Settings, SettingError>)
    ensures !value.VStr? ==> r == Failure(LogLevelNotAString)
    ensures value.VStr? ==> (r.Success? <==> Strings.Upper(value.s) in AllowedLevels)
    ensures value.VStr? && r.Failure? ==> r.error == InvalidLogLevel(Strings.Upper(value.s))
    ensures r.Success? ==> r.value == c.(logLevel := Strings.Upper(value.s)) && r.value.logLevel in AllowedLevels
  {
    if !value.VStr? then Failure(LogLevelNotAString)
    else
      var level := Strings.Upper(value.s);
      if level !in AllowedLevels then Failure(InvalidLogLevel(level))
      else Success(c.(logLevel := level))
  }

  /** The `debug` setter: only a boolean is accepted, and True also forces the "DEBUG" level. */
  function SetDebug(c: Settings, value: Value): (r: Result<Settings, SettingError>)
    ensures r.Success? <==> value.VBool?
    ensures r.Failure? ==> r.error == DebugNotABool
    ensures r.Success? ==> r.value.debug == value && r.value.configPath == c.configPath
                           && r.value.ouraClientId == c.ouraClientId && r.value.ouraClientSecret == c.ouraClientSecret
    ensures value == VBool(true) ==> r.Success? && r.value.logLevel == "DEBUG"
    ensures value == VBool(false) ==> r.Success? && r.value.logLevel == c.logLevel
  {
    match value
    case VBool(b) => Success(c.(debug := value, logLevel := if b then "DEBUG" else c.logLevel))
    case _ => Failure(DebugNotABool)
  }

  /** The `config_path` setter: only a string is accepted. */
  function SetConfigPath(c: Settings, value: Value): (r: Result<Settings, SettingError>)
    ensures r.Success? <==> value.VStr?
    ensures r.Success? ==> r.value == c.(configPath := Some(value.s))
    ensures r.Failure? ==> r.error == ConfigPathNotAString
  {
    if value.VStr? then Success(c.(configPath := Some(value.s))) else Failure(ConfigPathNotAString)
  }

  /** `self._x or os.getenv(NAME, "")`: a truthy YAML value wins, then the variable, then "". */
  function Credential(yaml: Option<Value>, env: Option<string>): (r: Value)
    ensures OptTruthy(yaml) ==> r == yaml.value
    ensures !OptTruthy(yaml) && env.Some? ==> r == VStr(env.value)
    ensures !OptTruthy(yaml) && env.None? ==> r == VStr("")
  {
    if OptTruthy(yaml) then yaml.value else VStr(env.GetOr(""))
  }

  /** The `oura_client_id` property, with OURA_CLIENT_ID given. */
  function OuraClientId(c: Settings, env: Option<string>): (r: Value)
    ensures OptTruthy(c.ouraClientId) ==> r == c.ouraClientId.value
    ensures !OptTruthy(c.ouraClientId) ==> r == VStr(env.GetOr(""))
  {
    Credential(c.ouraClientId, env)
  }

  /** The `oura_client_secret` property, with OURA_CLIENT_SECRET given. */
  function OuraClientSecret(c: Settings, env: Option<string>): (r: Value)
    ensures OptTruthy(c.ouraClientSecret) ==> r == c.ouraClientSecret.value
    ensures !OptTruthy(c.ouraClientSecret) ==> r == VStr(env.GetOr(""))
  {
    Credential(c.ouraClientSecret, env)
  }

  lemma {:induction false} UpperIgnoresAsciiCase(s: string)
    ensures Strings.Upper(Strings.Lower(s)) == Strings.Upper(s)
  {
    assert forall i :: 0 <= i < |s| ==> Strings.UpperChar(Strings.LowerChar(s[i])) == Strings.UpperChar(s[i]);
  }

  /** The level name is case-insensitive, and setting an accepted level twice changes nothing more. */
  lemma LogLevelIgnoresCase(c: Settings, s: string)
    ensures SetLogLevel(c, VStr(Strings.Lower(s))) == SetLogLevel(c, VStr(s))
    ensures SetLogLevel(c, VStr(s)).Success? ==>
              SetLogLevel(SetLogLevel(c, VStr(s)).value, VStr(s)) == SetLogLevel(c, VStr(s))
  {
    UpperIgnoresAsciiCase(s);
  }

  /** Any accepted sequence of setter calls keeps a valid level valid. */
  lemma SettersKeepLevelAllowed(c: Settings, value: Value)
    requires c.logLevel in AllowedLevels
    ensures SetLogLevel(c, value).Success? ==> SetLogLevel(c, value).value.logLevel in AllowedLevels
    ensures SetDebug(c, value).Success? ==> SetDebug(c, value).value.logLevel in AllowedLevels
    ensures SetConfigPath(c, value).Success? ==> SetConfigPath(c, value).value.logLevel in AllowedLevels
  {
  }
}
