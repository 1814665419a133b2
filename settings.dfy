/** The ETL's MongoDB settings: each comes from the first truthy of two
    environment variables, else from the API's appsettings.json (or a default),
    combined with Python's `or`; and the connection URI is logged with any
    credentials cut off. */
module MongoSettings {
  import opened Wrappers
  import opened Text

  const DefaultMongoUri: string := "mongodb://localhost:27017/"
  const DefaultDbName: string := "WeatherDb"
  const DefaultCollectionName: string := "Forecasts"

  /** The Python values the settings code can meet: what `os.getenv` returns
      and what `json.load` builds. `Other` stands for numbers, booleans and
      lists, with their truthiness. */
  datatype PyValue =
    | PyNone
    | PyStr(s: string)
    | PyDict(items: map<string, PyValue>)
    | Other(truthy: bool)

  /** Python truthiness: `None`, `""` and `{}` are false. */
  predicate Truthy(v: PyValue) {
    match v
    case PyNone => false
    case PyStr(s) => s != ""
    case PyDict(items) => items != map[]
    case Other(t) => t
  }

  /** The process environment, as `os.getenv` sees it. */
  type Environment = map<string, string>

  function GetEnv(env: Environment, name: string): (v: PyValue)
    ensures v == PyNone <==> name !in env
    ensures name in env ==> v == PyStr(env[name])
  {
    if name in env then PyStr(env[name]) else PyNone
  }

  /** `d.get(key, default)`; `None` when `d` is not a dict (AttributeError). */
  function DictGet(d: PyValue, key: string, default: PyValue): (r: Option<PyValue>)
    ensures r.Some? <==> d.PyDict?
    ensures d.PyDict? && key in d.items ==> r == Some(d.items[key])
    ensures d.PyDict? && key !in d.items ==> r == Some(default)
  {
    match d
    case PyDict(items) => Some(if key in items then items[key] else default)
    case _ => None
  }

  /** `cfg.get(k1, {}).get(k2, {}) ... .get(kn, default)`: a value that is
      not a dict raises (`None`); a key missing at any level gives the default,
      since every later `.get` is then made on `{}`; a key present at every
      level gives the last entry. */
  function ConfigLookup(cfg: PyValue, path: seq<string>, default: PyValue): (r: Option<PyValue>)
    requires |path| > 0
    ensures !cfg.PyDict? ==> r == None
    ensures cfg.PyDict? && path[0] !in cfg.items ==> r == Some(default)
    ensures cfg.PyDict? && path[0] in cfg.items && |path| == 1 ==> r == Some(cfg.items[path[0]])
    decreases |path|
  {
    if |path| == 1 then DictGet(cfg, path[0], default)
    else
      var inner :- DictGet(cfg, path[0], PyDict(map[]));
      ConfigLookup(inner, path[1..], default)
  }

  /** The two-level lookup of `MONGO_URI` and `DB_NAME`, spelled out. */
  lemma ConfigLookupTwoKeys(cfg: PyValue, k1: string, k2: string, default: PyValue)
    ensures ConfigLookup(cfg, [k1, k2], default)
            == if !cfg.PyDict? then None
               else if k1 !in cfg.items then Some(default)
               else if !cfg.items[k1].PyDict? then None
               else if k2 in cfg.items[k1].items then Some(cfg.items[k1].items[k2])
               else Some(default)
  {
    assert [k1, k2][1..] == [k2];
  }

  /** The three-level lookup of `COLLECTION_NAME`, spelled out. */
  lemma ConfigLookupThreeKeys(cfg: PyValue, k1: string, k2: string, k3: string, default: PyValue)
    ensures ConfigLookup(cfg, [k1, k2, k3], default)
            == if !cfg.PyDict? then None
               else if k1 !in cfg.items then Some(default)
               else if !cfg.items[k1].PyDict? then None
               else if k2 !in cfg.items[k1].items then Some(default)
               else if !cfg.items[k1].items[k2].PyDict? then None
               else if k3 in cfg.items[k1].items[k2].items then Some(cfg.items[k1].items[k2].items[k3])
               else Some(default)
  {
    assert [k1, k2, k3][1..] == [k2, k3];
    if cfg.PyDict? && k1 in cfg.items {
      ConfigLookupTwoKeys(cfg.items[k1], k2, k3, default);
    }
  }

  /** `getenv(primary) or getenv(legacy) or cfg.get(...)...get(last, default)`.
      Python's `or` evaluates lazily, so the configuration is consulted (and
      may raise) only when both variables are unset or empty. `None` stands
      for the exception that stops the script while it loads. */
  function Setting(env: Environment, primary: string, legacy: string,
                   cfg: PyValue, path: seq<string>, default: PyValue): (r: Option<PyValue>)
    requires |path| > 0
    ensures primary in env && env[primary] != "" ==> r == Some(PyStr(env[primary]))
    ensures !Truthy(GetEnv(env, primary)) && legacy in env && env[legacy] != ""
            ==> r == Some(PyStr(env[legacy]))
    ensures !Truthy(GetEnv(env, primary)) && !Truthy(GetEnv(env, legacy))
            ==> r == ConfigLookup(cfg, path, default)
  {
    var a := GetEnv(env, primary);
    if Truthy(a) then Some(a)
    else
      var b := GetEnv(env, legacy);
      if Truthy(b) then Some(b)
      else ConfigLookup(cfg, path, default)
  }

  /** An environment variable that `os.getenv` reports as falsy. */
  predicate Unset(env: Environment, name: string) {
    name !in env || env[name] == ""
  }

  /** `MONGO_URI` (store-weather-data.py, lines 42-46). */
  function MongoUri(env: Environment, cfg: PyValue): (r: Option<PyValue>)
    ensures !Unset(env, "MONGODB_URI") ==> r == Some(PyStr(env["MONGODB_URI"]))
    ensures Unset(env, "MONGODB_URI") && !Unset(env, "MONGO_URI") ==> r == Some(PyStr(env["MONGO_URI"]))
    ensures Unset(env, "MONGODB_URI") && Unset(env, "MONGO_URI") ==>
              r == if !cfg.PyDict? then None
                   else if "MongoDb" !in cfg.items then Some(PyStr(DefaultMongoUri))
                   else if !cfg.items["MongoDb"].PyDict? then None
                   else if "ConnectionUri" in cfg.items["MongoDb"].items
                   then Some(cfg.items["MongoDb"].items["ConnectionUri"])
                   else Some(PyStr(DefaultMongoUri))
  {
    ConfigLookupTwoKeys(cfg, "MongoDb", "ConnectionUri", PyStr(DefaultMongoUri));
    Setting(env, "MONGODB_URI", "MONGO_URI", cfg, ["MongoDb", "ConnectionUri"], PyStr(DefaultMongoUri))
  }

  /** `DB_NAME` (lines 47-51). */
  function DbName(env: Environment, cfg: PyValue): (r: Option<PyValue>)
    ensures !Unset(env, "MONGODB_DB") ==> r == Some(PyStr(env["MONGODB_DB"]))
    ensures Unset(env, "MONGODB_DB") && !Unset(env, "MONGO_DB_NAME") ==> r == Some(PyStr(env["MONGO_DB_NAME"]))
    ensures Unset(env, "MONGODB_DB") && Unset(env, "MONGO_DB_NAME") ==>
              r == if !cfg.PyDict? then None
                   else if "MongoDb" !in cfg.items then Some(PyStr(DefaultDbName))
                   else if !cfg.items["MongoDb"].PyDict? then None
                   else if "DatabaseName" in cfg.items["MongoDb"].items
                   then Some(cfg.items["MongoDb"].items["DatabaseName"])
                   else Some(PyStr(DefaultDbName))
  {
    ConfigLookupTwoKeys(cfg, "MongoDb", "DatabaseName", PyStr(DefaultDbName));
    Setting(env, "MONGODB_DB", "MONGO_DB_NAME", cfg, ["MongoDb", "DatabaseName"], PyStr(DefaultDbName))
  }

  /** `COLLECTION_NAME` (lines 52-56). */
  function CollectionName(env: Environment, cfg: PyValue): (r: Option<PyValue>)
    ensures !Unset(env, "MONGODB_COLLECTION") ==> r == Some(PyStr(env["MONGODB_COLLECTION"]))
    ensures Unset(env, "MONGODB_COLLECTION") && !Unset(env, "MONGO_COLLECTION_NAME")
            ==> r == Some(PyStr(env["MONGO_COLLECTION_NAME"]))
    ensures Unset(env, "MONGODB_COLLECTION") && Unset(env, "MONGO_COLLECTION_NAME") ==>
              r == if !cfg.PyDict? then None
                   else if "MongoDb" !in cfg.items then Some(PyStr(DefaultCollectionName))
                   else if !cfg.items["MongoDb"].PyDict? then None
                   else if "Collections" !in cfg.items["MongoDb"].items then Some(PyStr(DefaultCollectionName))
                   else if !cfg.items["MongoDb"].items["Collections"].PyDict? then None
                   else if "Forecasts" in cfg.items["MongoDb"].items["Collections"].items
                   then Some(cfg.items["MongoDb"].items["Collections"].items["Forecasts"])
                   else Some(PyStr(DefaultCollectionName))
  {
    ConfigLookupThreeKeys(cfg, "MongoDb", "Collections", "Forecasts", PyStr(DefaultCollectionName));
    Setting(env, "MONGODB_COLLECTION", "MONGO_COLLECTION_NAME", cfg,
            ["MongoDb", "Collections", "Forecasts"], PyStr(DefaultCollectionName))
  }

  /** Python's `x1 or x2 or ... or xn`: the first truthy operand, or the last
      operand when none is truthy. */
  function OrChain(xs: seq<PyValue>): (r: PyValue)
    requires |xs| > 0
    ensures exists k :: 0 <= k < |xs| && r == xs[k] && (Truthy(r) || k == |xs| - 1)
                        && forall j :: 0 <= j < k ==> !Truthy(xs[j])
  {
    if |xs| == 1 || Truthy(xs[0]) then xs[0]
    else
      var r := OrChain(xs[1..]);
      ghost var k :| 0 <= k < |xs[1..]| && r == xs[1..][k] && (Truthy(r) || k == |xs[1..]| - 1)
                     && forall j :: 0 <= j < k ==> !Truthy(xs[1..][j]);
      assert r == xs[k + 1] && forall j :: 0 <= j < k + 1 ==> !Truthy(xs[j]) by {
        forall j | 0 <= j < k + 1 ensures !Truthy(xs[j]) {
          if j > 0 { assert xs[j] == xs[1..][j - 1]; }
        }
      }
      r
  }

  /** When the configuration file has the expected shape, a setting is exactly
      the or-chain of its two environment variables and its configuration entry. */
  lemma SettingIsOrChain(env: Environment, primary: string, legacy: string,
                         cfg: PyValue, path: seq<string>, default: PyValue)
    requires |path| > 0
    requires ConfigLookup(cfg, path, default).Some?
    ensures Setting(env, primary, legacy, cfg, path, default)
            == Some(OrChain([GetEnv(env, primary), GetEnv(env, legacy), ConfigLookup(cfg, path, default).value]))
  {
  }

  /** A setting fails to load only when both variables are unset or empty and
      the configuration file does not have the expected shape. */
  lemma SettingFailsOnlyOnBadConfig(env: Environment, primary: string, legacy: string,
                                    cfg: PyValue, path: seq<string>, default: PyValue)
    requires |path| > 0
    ensures Setting(env, primary, legacy, cfg, path, default).None?
            <==> !Truthy(GetEnv(env, primary)) && !Truthy(GetEnv(env, legacy))
                 && ConfigLookup(cfg, path, default).None?
  {
  }

  /** With no variables set and no appsettings.json (`cfg = {}`), the defaults apply. */
  lemma DefaultsWithoutConfiguration()
    ensures MongoUri(map[], PyDict(map[])) == Some(PyStr(DefaultMongoUri))
    ensures DbName(map[], PyDict(map[])) == Some(PyStr(DefaultDbName))
    ensures CollectionName(map[], PyDict(map[])) == Some(PyStr(DefaultCollectionName))
  {
  }

  /** An entry present in appsettings.json wins over the default even when it
      is the empty string: `dict.get` only falls back for a missing key, so the
      precedence is not "first non-empty" at this last step. */
  lemma EmptyConfigEntryBeatsDefault()
    ensures MongoUri(map[], PyDict(map["MongoDb" := PyDict(map["ConnectionUri" := PyStr("")])]))
            == Some(PyStr(""))
  {
  }

  /** Python's `s.split(sep)`: the maximal runs between separators; there is
      always at least one (possibly empty) part. */
  function Split(s: string, sep: char): (parts: seq<string>)
    ensures |parts| >= 1
    decreases |s|
  {
    if |s| == 0 then [""]
    else
      var parts := Split(s[..|s| - 1], sep);
      if s[|s| - 1] == sep then parts + [""]
      else parts[..|parts| - 1] + [parts[|parts| - 1] + [s[|s| - 1]]]
  }

  /** No part contains the separator. */
  lemma {:induction false} SplitPartsAvoidSep(s: string, sep: char)
    ensures forall k :: 0 <= k < |Split(s, sep)| ==> sep !in Split(s, sep)[k]
    decreases |s|
  {
    if |s| > 0 {
      SplitPartsAvoidSep(s[..|s| - 1], sep);
    }
  }

  /** `sep.join(parts)`. */
  function Join(parts: seq<string>, sep: char): string
    requires |parts| >= 1
  {
    if |parts| == 1 then parts[0] else Join(parts[..|parts| - 1], sep) + [sep] + parts[|parts| - 1]
  }

  lemma JoinAppendLast(parts: seq<string>, sep: char, c: char)
    requires |parts| >= 1
    ensures Join(parts[..|parts| - 1] + [parts[|parts| - 1] + [c]], sep) == Join(parts, sep) + [c]
  {
    var q := parts[..|parts| - 1] + [parts[|parts| - 1] + [c]];
    if |parts| > 1 {
      assert q[..|q| - 1] == parts[..|parts| - 1];
    }
  }

  /** Splitting loses nothing: joining the parts gives back the string. */
  lemma {:induction false} JoinSplit(s: string, sep: char)
    ensures Join(Split(s, sep), sep) == s
    decreases |s|
  {
    if |s| > 0 {
      var init := s[..|s| - 1];
      var parts := Split(init, sep);
      var c := s[|s| - 1];
      JoinSplit(init, sep);
      assert init + [c] == s;
      if c == sep {
        var q := parts + [""];
        assert Split(s, sep) == q;
        assert q[..|q| - 1] == parts;
        assert Join(q, sep) == Join(parts, sep) + [sep] + "";
      } else {
        assert Split(s, sep) == parts[..|parts| - 1] + [parts[|parts| - 1] + [c]];
        JoinAppendLast(parts, sep, c);
      }
    }
  }

  /** The URI as it is logged (lines 104 and 424):
      `uri.split('@')[-1] if '@' in uri else uri`. */
  function MaskUri(uri: string): (masked: string)
    ensures '@' !in masked
  {
    if '@' in uri then
      var parts := Split(uri, '@');
      SplitPartsAvoidSep(uri, '@');
      parts[|parts| - 1]
    else uri
  }

  /** The last part of a split is the text after the last separator. */
  lemma {:induction false} LastPartIsSuffix(s: string, sep: char)
    ensures var parts := Split(s, sep); var last := parts[|parts| - 1];
            |last| <= |s| && s[|s| - |last|..] == last
            && (|last| < |s| ==> s[|s| - |last| - 1] == sep)
    decreases |s|
  {
    if |s| > 0 {
      LastPartIsSuffix(s[..|s| - 1], sep);
    }
  }

  /** The masked URI is the longest suffix of the URI without an '@': it is
      a suffix, and either it is the whole URI or an '@' precedes it. */
  lemma MaskUriIsTextAfterLastAt(uri: string)
    ensures var m := MaskUri(uri);
            EndsWith(uri, m) && (m == uri || uri[|uri| - |m| - 1] == '@')
  {
    if '@' in uri {
      LastPartIsSuffix(uri, '@');
    }
  }

  /** Line 425: the logged form is prefixed by "***" unless it is the default URI. */
  function LoggedUri(uri: string): (shown: string)
    ensures '@' !in shown
    ensures EndsWith(shown, MaskUri(uri))
  {
    var masked := MaskUri(uri);
    if uri != DefaultMongoUri then "***" + masked else masked
  }
}
