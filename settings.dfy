/**
 * The configuration object: the YAML document loaded at start-up, lookups by key and by dotted
 * path, the feature switches and the settings that fall back to built-in defaults.
 */
module Settings {
  import opened Wrappers
  import opened Text

  /** A value of the loaded YAML document (floats and dates are not modelled). */
  datatype Yaml =
    | YNull
    | YBool(b: bool)
    | YInt(i: int)
    | YStr(s: string)
    | YList(items: seq<Yaml>)
    | YMap(entries: map<string, Yaml>)

  /** Python truthiness of a value. */
  predicate Truthy(v: Yaml) {
    match v
    case YNull => false
    case YBool(b) => b
    case YInt(i) => i != 0
    case YStr(s) => s != ""
    case YList(items) => items != []
    case YMap(entries) => entries != map[]
  }

  /** The file the configuration is read from: the argument, else `CONFIG_PATH`, else `config.yaml` beside the source directory. */
  function ConfigPath(argument: Option<string>, environment: Option<string>, parentDir: string): (r: string)
    ensures argument.Some? && argument.value != "" ==> r == argument.value
    ensures (argument.None? || argument.value == "") && environment.Some? && environment.value != "" ==> r == environment.value
    ensures (argument.None? || argument.value == "") && (environment.None? || environment.value == "") ==>
      r == parentDir + "/config.yaml"
  {
    if argument.Some? && argument.value != "" then argument.value
    else if environment.Some? && environment.value != "" then environment.value
    else parentDir + "/config.yaml"
  }

  /** Follow `keys` down through nested maps; `None` as soon as a key is missing or the value is not a map. */
  function Walk(v: Yaml, keys: seq<string>): Option<Yaml>
    decreases |keys|
  {
    if keys == [] then Some(v)
    else if v.YMap? && keys[0] in v.entries then Walk(v.entries[keys[0]], keys[1..])
    else None
  }

  /** Walking a path is walking its first part, then the rest from where that ends. */
  lemma {:induction false} WalkAppend(v: Yaml, a: seq<string>, b: seq<string>)
    ensures Walk(v, a + b) == if Walk(v, a).Some? then Walk(Walk(v, a).value, b) else None
    decreases |a|
  {
    if a != [] {
      assert (a + b)[0] == a[0] && (a + b)[1..] == a[1..] + b;
      if v.YMap? && a[0] in v.entries {
        WalkAppend(v.entries[a[0]], a[1..], b);
      }
    } else {
      assert a + b == b;
    }
  }

  /** The settings read through a property with a built-in default. */
  datatype Setting =
    | QrPassword | WebHost | WebPort | Debug | DownloadsDir | MaxFileSize | RequestTimeout | LogLevel | CorsOrigins

  function SettingKey(p: Setting): string {
    match p
    case QrPassword => "QR_PASSWORD"
    case WebHost => "web_host"
    case WebPort => "web_port"
    case Debug => "debug"
    case DownloadsDir => "downloads_dir"
    case MaxFileSize => "max_file_size"
    case RequestTimeout => "request_timeout"
    case LogLevel => "log_level"
    case CorsOrigins => "cors_origins"
  }

  /** The `_defaults` table. */
  const Defaults: map<string, Yaml> := map[
    "web_host" := YStr("0.0.0.0"),
    "web_port" := YStr("5151"),
    "debug" := YBool(false),
    "QR_PASSWORD" := YStr("1234"),
    "downloads_dir" := YStr("downloads"),
    "max_file_size" := YInt(524288000),
    "request_timeout" := YInt(30),
    "log_level" := YStr("INFO"),
    "cors_origins" := YStr("*"),
    "API_KEY" := YStr("9527"),
    "RATE_LIMIT" := YStr("200/hour"),
    "IP_WHITELIST" := YList([YStr("127.0.0.1"), YStr("192.168.1.0/24")]),
    "PROTECTED_ENDPOINTS" := YList([YStr("/song"), YStr("/search"), YStr("/playlist"), YStr("/album"),
                                    YStr("/download"), YStr("/api/qr"), YStr("/song/detail")]),
    "PUBLIC_ENDPOINTS" := YList([YStr("/health"), YStr("/api/info"), YStr("/")])
  ]

  /** Every property has its default in the table. */
  lemma SettingsHaveDefaults(p: Setting)
    ensures SettingKey(p) in Defaults
  {
  }

  /** `Config`: the loaded document in `config`. */
  class Config {
    var config: map<string, Yaml>

    /** Loading: `yaml.safe_load(f) or {}`, with an empty or null document read as no entries. */
    constructor(loaded: map<string, Yaml>)
      ensures config == loaded
    {
      config := loaded;
    }

    /** `get`: the top-level value, or `default` when the key is absent. */
    function Get(key: string, default: Yaml): Yaml
      reads this
    {
      if key in config then config[key] else default
    }

    /** `get_nested`: descend through the `.`-separated path, `default` once a step fails. */
    method GetNested(path: string, default: Yaml) returns (r: Yaml)
      ensures r == Walk(YMap(config), Split(path, ".")).GetOr(default)
    {
      var keys := Split(path, ".");
      var current := YMap(config);
      for i := 0 to |keys|
        invariant Walk(YMap(config), keys) == Walk(current, keys[i..])
      {
        assert keys[i..][0] == keys[i] && keys[i..][1..] == keys[i + 1..];
        if current.YMap? && keys[i] in current.entries {
          current := current.entries[keys[i]];
        } else {
          return default;
        }
      }
      assert keys[|keys|..] == [];
      r := current;
    }

    /** For a key without `.`, the nested lookup is the top-level one. */
    lemma GetNestedFlat(key: string, default: Yaml)
      requires '.' !in key
      ensures Walk(YMap(config), Split(key, ".")).GetOr(default) == Get(key, default)
    {
      SplitNoSep(key, '.');
      assert Split(key, ".") == [key];
    }

    /**
     * `is_enabled`: `NAVIDROME` reads the upper-case `NAVIDROME` node, `MYSQL` the lower-case
     * `mysql` node, each regardless of the argument's case; a truthy node that is not a map
     * fails on `.get`.
     */
    function IsEnabled(kind: string): (r: Result<bool>)
      reads this
      ensures r != Success(false) ==> Upper(kind) == "NAVIDROME" || Upper(kind) == "MYSQL"
    {
      var kindUpper := Upper(kind);
      if kindUpper == "NAVIDROME" then SwitchOn(Get("NAVIDROME", YNull), "USE_NAVIDROME")
      else if kindUpper == "MYSQL" then SwitchOn(Get("mysql", YNull), "USE_MYSQL")
      else Success(false)
    }

    /** A switch is on only when its node is a map whose flag is exactly `True`. */
    lemma IsEnabledIff(kind: string)
      ensures IsEnabled(kind) == Success(true) <==>
        (Upper(kind) == "NAVIDROME" && FlagSet(Get("NAVIDROME", YNull), "USE_NAVIDROME")) ||
        (Upper(kind) == "MYSQL" && FlagSet(Get("mysql", YNull), "USE_MYSQL"))
      ensures IsEnabled(kind).Failure? <==>
        (Upper(kind) == "NAVIDROME" && Truthy(Get("NAVIDROME", YNull)) && !Get("NAVIDROME", YNull).YMap?) ||
        (Upper(kind) == "MYSQL" && Truthy(Get("mysql", YNull)) && !Get("mysql", YNull).YMap?)
      ensures Upper(kind) != "NAVIDROME" && Upper(kind) != "MYSQL" ==> IsEnabled(kind) == Success(false)
    {
      assert "NAVIDROME" != "MYSQL";
    }

    /** A property: the configured value when the key is present, even a null one, else the default. */
    function Property(p: Setting): (r: Yaml)
      reads this
      ensures SettingKey(p) in config ==> r == config[SettingKey(p)]
      ensures SettingKey(p) !in config ==> r == Defaults[SettingKey(p)]
    {
      Get(SettingKey(p), Defaults[SettingKey(p)])
    }

    /** `__getitem__`: the value, or the `KeyError` `get` would have turned into a default. */
    function GetItem(key: string): (r: Result<Yaml>)
      reads this
      ensures r.Success? ==> r.value == Get(key, YNull)
    {
      if key in config then Success(config[key]) else Failure("KeyError")
    }

    /** `__contains__`. */
    predicate Contains(key: string)
      reads this
    {
      key in config
    }

    /** Indexing succeeds exactly for the keys `in` reports, and then agrees with `get` whatever its default. */
    lemma GetItemContains(key: string, default: Yaml)
      ensures GetItem(key).Success? <==> Contains(key)
      ensures GetItem(key).Success? ==> GetItem(key).value == Get(key, default)
      ensures !Contains(key) ==> Get(key, default) == default
    {
    }
  }

  /** The flag of a feature node is exactly `True`. */
  predicate FlagSet(node: Yaml, flag: string) {
    node.YMap? && flag in node.entries && node.entries[flag] == YBool(true)
  }

  /** `node.get(flag, False) is True` behind the `if not node` guard. */
  function SwitchOn(node: Yaml, flag: string): (r: Result<bool>)
    ensures r == Success(true) <==> FlagSet(node, flag)
    ensures r.Failure? <==> Truthy(node) && !node.YMap?
  {
    if !Truthy(node) then Success(false)
    else if !node.YMap? then Failure("AttributeError")
    else Success(flag in node.entries && node.entries[flag] == YBool(true))
  }
}
