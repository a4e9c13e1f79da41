// The configuration loader of src/prod_monitoring/unified_config.py: the lookups
// `get_config`, `get_bool` and `get_int` (config.ini first, then the environment),
// `parse_service_metadata`, which reads the region table of a service from the
// DEFAULT section, and `validate_config`. Reading the file and the environment is
// left to the caller: both arrive as dictionaries.
module UnifiedConfig {
  import opened Wrappers
  import opened Text
  import opened Numbers
  import opened PyDict

  /**
   * The DEFAULT section of config.ini as configparser reads it: option names
   * lower-cased, in file order. A missing file is None.
   */
  datatype ConfigFile = ConfigFile(defaults: Dict<string, string>)

  /** `os.environ` */
  type Env = Dict<string, string>

  /** `config.has_option("DEFAULT", key)` and `config.get("DEFAULT", key)`: option names are compared lower-cased. */
  function FileValue(config: Option<ConfigFile>, key: string): Option<string>
  {
    if config.None? then None else Lookup(config.value.defaults, Lower(key))
  }

  /** `get_config` */
  function GetConfig(config: Option<ConfigFile>, env: Env, key: string, default: Option<string>): (r: Option<string>)
  {
    match FileValue(config, key)
    case Some(v) => Some(v)
    case None =>
      match Lookup(env, key)
      case Some(v) => Some(v)
      case None => default
  }

  /** The spellings configparser's getboolean accepts, each with its meaning. */
  const TrueWords: seq<string> := ["1", "yes", "true", "on"]
  const FalseWords: seq<string> := ["0", "no", "false", "off"]

  /** `str(b)` */
  function PyBoolStr(b: bool): string
  {
    if b then "True" else "False"
  }

  /** `config.getboolean`: any other spelling raises ValueError. */
  function FileBool(value: string): Result<bool, string>
  {
    if Lower(value) in TrueWords then Success(true)
    else if Lower(value) in FalseWords then Success(false)
    else Failure("Not a boolean: " + value)
  }

  /** `get_bool`: the file's value if it has the option, else the environment's, else the default. */
  function GetBool(config: Option<ConfigFile>, env: Env, key: string, default: bool): Result<bool, string>
  {
    match FileValue(config, key)
    case Some(v) => FileBool(v)
    case None =>
      var text := match Lookup(env, key) case Some(v) => v case None => PyBoolStr(default);
      Success(Lower(text) in ["true", "1", "yes", "on"])
  }

  /** `get_int`: `config.getint` lets ValueError out; for the environment the default replaces a value int() rejects. */
  function GetInt(config: Option<ConfigFile>, env: Env, key: string, default: int): Result<int, string>
  {
    match FileValue(config, key)
    case Some(v) =>
      (match ParseInt(v)
       case Some(n) => Success(n)
       case None => Failure("invalid literal for int() with base 10: " + v))
    case None =>
      match Lookup(env, key)
      case None => Success(default)
      case Some(v) =>
        match ParseInt(v)
        case Some(n) => Success(n)
        case None => Success(default)
  }

  // ---------------------------------------------------------------------
  // What the lookups promise

  /** The file wins over the environment, the environment over the default. */
  lemma GetConfigOrder(config: Option<ConfigFile>, env: Env, key: string, default: Option<string>)
    ensures FileValue(config, key).Some? ==> GetConfig(config, env, key, default) == FileValue(config, key)
    ensures FileValue(config, key).None? && Lookup(env, key).Some? ==> GetConfig(config, env, key, default) == Lookup(env, key)
    ensures FileValue(config, key).None? && Lookup(env, key).None? ==> GetConfig(config, env, key, default) == default
    ensures config.None? ==> GetConfig(config, env, key, default) == (if Lookup(env, key).Some? then Lookup(env, key) else default)
  {
  }

  /** Without the option in the file, the environment's value is true exactly when it spells true, 1, yes or on in any case. */
  lemma GetBoolFromEnv(config: Option<ConfigFile>, env: Env, key: string, default: bool, v: string)
    requires FileValue(config, key).None? && Lookup(env, key) == Some(v)
    ensures GetBool(config, env, key, default).Success?
    ensures GetBool(config, env, key, default).value
            <==> Lower(v) == "true" || Lower(v) == "1" || Lower(v) == "yes" || Lower(v) == "on"
  {
  }

  lemma LowerTrue()
    ensures Lower("True") == "true"
  {
    assert LowerChar('T') == 't';
  }

  lemma LowerFalse()
    ensures Lower("False") == "false"
  {
    assert LowerChar('F') == 'f';
  }

  /** With neither file option nor environment variable, get_bool gives its default (str(True) lower-cases to "true"). */
  lemma GetBoolDefault(config: Option<ConfigFile>, env: Env, key: string, default: bool)
    requires FileValue(config, key).None? && Lookup(env, key).None?
    ensures GetBool(config, env, key, default) == Success(default)
  {
    LowerTrue();
    LowerFalse();
  }

  /** A value in the file is true or false only in one of getboolean's spellings, and raises otherwise. */
  lemma GetBoolFromFile(config: Option<ConfigFile>, env: Env, key: string, default: bool, v: string)
    requires FileValue(config, key) == Some(v)
    ensures GetBool(config, env, key, default) == Success(true) <==> Lower(v) in TrueWords
    ensures GetBool(config, env, key, default) == Success(false) <==> Lower(v) in FalseWords
    ensures GetBool(config, env, key, default).Failure? <==> Lower(v) !in TrueWords && Lower(v) !in FalseWords
  {
  }

  /** Without the option in the file, get_int never raises: it gives the parsed value or the default. */
  lemma GetIntFromEnv(config: Option<ConfigFile>, env: Env, key: string, default: int)
    requires FileValue(config, key).None?
    ensures GetInt(config, env, key, default).Success?
    ensures Lookup(env, key).None? ==> GetInt(config, env, key, default).value == default
    ensures Lookup(env, key).Some? && ParseInt(Lookup(env, key).value).None? ==> GetInt(config, env, key, default).value == default
    ensures Lookup(env, key).Some? && ParseInt(Lookup(env, key).value).Some?
            ==> GetInt(config, env, key, default).value == ParseInt(Lookup(env, key).value).value
  {
  }

  /** An environment variable holding str(n) gives n back. */
  lemma GetIntWritten(config: Option<ConfigFile>, env: Env, key: string, default: int, n: int)
    requires FileValue(config, key).None? && Lookup(env, key) == Some(IntToString(n))
    ensures GetInt(config, env, key, default) == Success(n)
  {
    ParseIntToString(n);
  }

  /** A value in the file that int() rejects raises instead of falling back. */
  lemma GetIntFileRaises(config: Option<ConfigFile>, env: Env, key: string, default: int, v: string)
    requires FileValue(config, key) == Some(v) && ParseInt(v).None?
    ensures GetInt(config, env, key, default).Failure?
  {
  }

  // ---------------------------------------------------------------------
  // parse_service_metadata

  /** (dashboard_name, aws_region, log_group) */
  type Triple = (string, string, string)

  /** Region code to its triple, in the order the codes were first met. */
  type Metadata = Dict<string, Triple>

  /** `[p.strip() for p in value.split(",")]` */
  function StrippedParts(value: string): seq<string>
  {
    var raw := SplitOn(value, ',');
    seq(|raw|, k requires 0 <= k < |raw| => Strip(raw[k]))
  }

  /** What one option of the DEFAULT section adds: its region code and triple, if it is one of the service's options. */
  function Entry(prefix: string, option: (string, string)): Option<(string, Triple)>
  {
    var (key, value) := option;
    if StartsWith(key, Lower(prefix) + "_") then
      var parts := StrippedParts(value);
      if |parts| == 3 then Some((Upper(key[|prefix| + 1..]), (parts[0], parts[1], parts[2]))) else None
    else None
  }

  /**
   * An option counts exactly when its name starts with the lower-cased prefix and an
   * underscore and its value has three comma-separated parts; the code is the rest of
   * the name upper-cased, the triple the stripped parts.
   */
  lemma EntryShape(prefix: string, option: (string, string))
    ensures Entry(prefix, option).Some? <==> StartsWith(option.0, Lower(prefix) + "_") && |SplitOn(option.1, ',')| == 3
    ensures Entry(prefix, option).Some? ==> |prefix| + 1 <= |option.0| && Entry(prefix, option).value.0 == Upper(option.0[|prefix| + 1..])
    ensures Entry(prefix, option).Some? ==> var raw := SplitOn(option.1, ',');
              Entry(prefix, option).value.1 == (Strip(raw[0]), Strip(raw[1]), Strip(raw[2]))
  {
  }

  /** Entry for the given prefix, as a function of the option alone. */
  function EntryOf(prefix: string): ((string, string)) -> Option<(string, Triple)>
  {
    option => Entry(prefix, option)
  }

  /** The metadata the loop builds from the given options. */
  function MetadataOf(options: Dict<string, string>, prefix: string): Metadata
  {
    SetEach(options, EntryOf(prefix))
  }

  /** `parse_service_metadata` as a value: nothing without a config file. */
  function ServiceMetadata(config: Option<ConfigFile>, prefix: string): (m: Metadata)
    ensures config.None? ==> m == []
  {
    if config.None? then [] else MetadataOf(config.value.defaults, prefix)
  }

  /** `parse_service_metadata` */
  method ParseServiceMetadata(config: Option<ConfigFile>, prefix: string) returns (metadata: Metadata)
    ensures metadata == ServiceMetadata(config, prefix)
  {
    metadata := [];
    if config.None? {
      return;
    }
    var options := config.value.defaults;
    for i := 0 to |options|
      invariant metadata == MetadataOf(options[..i], prefix)
    {
      SetEachSnoc(options, EntryOf(prefix), i);
      var (key, value) := options[i];
      if StartsWith(key, Lower(prefix) + "_") {
        var regionCode := Upper(key[|prefix| + 1..]);
        var parts := StrippedParts(value);
        if |parts| == 3 {
          assert Entry(prefix, options[i]) == Some((regionCode, (parts[0], parts[1], parts[2])));
          metadata := Set(metadata, regionCode, (parts[0], parts[1], parts[2]));
        } else {
          assert Entry(prefix, options[i]).None?;
        }
      } else {
        assert Entry(prefix, options[i]).None?;
      }
    }
    assert options[..|options|] == options;
  }

  /** Every region in the metadata comes from one of the service's options with exactly three parts. */
  lemma MetadataSound(options: Dict<string, string>, prefix: string, code: string)
    requires Lookup(MetadataOf(options, prefix), code).Some?
    ensures exists j :: 0 <= j < |options| && Entry(prefix, options[j]) == Some((code, Lookup(MetadataOf(options, prefix), code).value))
  {
    SetEachSound(options, EntryOf(prefix), code);
  }

  /** The last of the service's options that gives a region code decides its triple. */
  lemma MetadataLastWins(options: Dict<string, string>, prefix: string, i: nat, code: string, t: Triple)
    requires i < |options| && Entry(prefix, options[i]) == Some((code, t))
    requires forall j :: i < j < |options| ==> Entry(prefix, options[j]).None? || Entry(prefix, options[j]).value.0 != code
    ensures Lookup(MetadataOf(options, prefix), code) == Some(t)
  {
    SetEachLastWins(options, EntryOf(prefix), i, code, t);
  }

  lemma UpperHasNoLower(s: string)
    ensures forall k :: 0 <= k < |Upper(s)| ==> !IsLower(Upper(s)[k])
  {
  }

  /** Region codes are upper-cased: none holds a lower-case letter. */
  lemma RegionCodesUpper(options: Dict<string, string>, prefix: string, code: string)
    requires Lookup(MetadataOf(options, prefix), code).Some?
    ensures forall k :: 0 <= k < |code| ==> !IsLower(code[k])
  {
    MetadataSound(options, prefix, code);
    var j :| 0 <= j < |options| && Entry(prefix, options[j]) == Some((code, Lookup(MetadataOf(options, prefix), code).value));
    EntryShape(prefix, options[j]);
    UpperHasNoLower(options[j].0[|prefix| + 1..]);
  }

  // ---------------------------------------------------------------------
  // validate_config

  /** The settings `validate_config` reads. */
  datatype Settings = Settings(
    enableAi: bool, endpoint: Option<string>, enableSra: bool, enableSrm: bool,
    sraProd: Metadata, sraPerf: Metadata, srmProd: Metadata, srmPerf: Metadata)

  /** Python truthiness of an optional string. */
  predicate Present(s: Option<string>)
  {
    s.Some? && s.value != ""
  }

  /**
   * The module-level assignments behind those settings, in the order they run; the first
   * failing one raises. Only the three `get_bool` settings can fail here: the `get_int`
   * assignments that run between them (`LAMBDA_TIMEOUT`, `MIN_ERRORS_FOR_AI_ANALYSIS`,
   * `START_DAYS_BACK` and the others) are not evaluated, so with a configuration file holding
   * a non-integer value for one of them the program raises that `ValueError` before the
   * `get_bool` settings that follow it, and this function does not. Every lemma below uses it without a
   * configuration file, where `get_int` falls back to its default instead of
   * raising.
   */
  function LoadSettings(config: Option<ConfigFile>, env: Env): Result<Settings, string>
  {
    match GetBool(config, env, "ENABLE_AI_ANALYSIS", true)
    case Failure(e) => Failure(e)
    case Success(ai) =>
      var endpoint := GetConfig(config, env, "LAMBDA_API_ENDPOINT", None);
      match GetBool(config, env, "ENABLE_SRA", true)
      case Failure(e) => Failure(e)
      case Success(sra) =>
        match GetBool(config, env, "ENABLE_SRM", true)
        case Failure(e) => Failure(e)
        case Success(srm) =>
          Success(Settings(ai, endpoint, sra, srm,
                           ServiceMetadata(config, "SRA_PROD"), ServiceMetadata(config, "SRA_PERF"),
                           ServiceMetadata(config, "SRM_PROD"), ServiceMetadata(config, "SRM_PERF")))
  }

  const AiIssue: string := "AI_ANALYSIS enabled but LAMBDA_API_ENDPOINT not set"
  const SraIssue: string := "SRA enabled but no regions configured"
  const SrmIssue: string := "SRM enabled but no regions configured"

  /** The issues `validate_config` records, in order. */
  function ConfigIssues(s: Settings): seq<string>
  {
    (if s.enableAi && !Present(s.endpoint) then [AiIssue] else [])
    + (if s.enableSra && s.sraProd == [] && s.sraPerf == [] then [SraIssue] else [])
    + (if s.enableSrm && s.srmProd == [] && s.srmPerf == [] then [SrmIssue] else [])
  }

  /** `validate_config`: the warnings are logging and left out. */
  method ValidateConfig(s: Settings) returns (ok: bool)
    ensures ok <==> ConfigIssues(s) == []
  {
    var issues: seq<string> := [];
    if s.enableAi && !Present(s.endpoint) {
      issues := issues + [AiIssue];
    }
    if s.enableSra && s.sraProd == [] && s.sraPerf == [] {
      issues := issues + [SraIssue];
    }
    if s.enableSrm && s.srmProd == [] && s.srmPerf == [] {
      issues := issues + [SrmIssue];
    }
    assert issues == ConfigIssues(s);
    ok := |issues| == 0;
  }

  /**
   * The configuration is valid exactly when AI analysis has an endpoint or is off,
   * and each enabled service has a production or performance region.
   */
  lemma ValidIff(s: Settings)
    ensures ConfigIssues(s) == []
            <==> && (s.enableAi ==> Present(s.endpoint))
                 && (s.enableSra ==> s.sraProd != [] || s.sraPerf != [])
                 && (s.enableSrm ==> s.srmProd != [] || s.srmPerf != [])
  {
    if s.enableAi && !Present(s.endpoint) {
      assert ConfigIssues(s)[0] == AiIssue;
    } else if s.enableSra && s.sraProd == [] && s.sraPerf == [] {
      assert ConfigIssues(s)[0] == SraIssue;
    } else if s.enableSrm && s.srmProd == [] && s.srmPerf == [] {
      assert ConfigIssues(s)[0] == SrmIssue;
    }
  }

  /** Without a config file, no service has regions, so a run with SRA on (the default) is never valid. */
  lemma NoFileInvalid(env: Env, s: Settings)
    requires LoadSettings(None, env) == Success(s) && s.enableSra
    ensures ConfigIssues(s) != []
  {
    ValidIff(s);
  }

  /** With nothing in file or environment, AI analysis and both services are on with no endpoint and no regions: all three issues. */
  lemma EmptySetupIssues()
    ensures LoadSettings(None, []).Success?
    ensures ConfigIssues(LoadSettings(None, []).value) == [AiIssue, SraIssue, SrmIssue]
  {
    GetBoolDefault(None, [], "ENABLE_AI_ANALYSIS", true);
    GetBoolDefault(None, [], "ENABLE_SRA", true);
    GetBoolDefault(None, [], "ENABLE_SRM", true);
  }
}
