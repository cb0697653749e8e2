/**
 * The configuration records with their default values, their JSON
 * encoding and their field-by-field decoding with defaults.
 *
 * Decoding follows the JSON library's conventions: `value(key, default)`
 * fails on anything that is not an object, gives the default when the key
 * is absent and converts the stored value otherwise. A conversion to the
 * 16-bit port type is a cast: the integer is taken modulo 2^16 and a
 * boolean reads as 0 or 1. A conversion to a 64-bit size, the library's
 * own unsigned number type, accepts numbers only and takes them modulo
 * 2^64; a boolean is a type error. A conversion to a string or a list of
 * strings fails on any other kind of value.
 */
module Config {
  import opened Wrappers
  import opened Json

  const U16Modulus: nat := 0x1_0000
  const U64Modulus: nat := 0x1_0000_0000_0000_0000

  /** uint16_t */
  type Port = x: int | 0 <= x < 0x1_0000
  /** uint64_t */
  type U64 = x: int | 0 <= x < 0x1_0000_0000_0000_0000

  datatype ModelDetails = ModelDetails(
    format: string,
    family: string,
    families: Option<seq<string>>,
    parameterSize: string,
    quantizationLevel: string)

  const DefaultModelDetails := ModelDetails("gguf", "unknown", None, "N/A", "unknown")

  /** One catalog entry; `name` is the identity every lifecycle operation uses. */
  datatype TagModelInfo = TagModelInfo(
    name: string,
    modifiedAt: string,
    size: U64,
    digest: string,
    details: ModelDetails)

  const DefaultTagModelInfo := TagModelInfo(
    "default:latest",
    "1970-01-01T00:00:00.000000Z",
    0,
    "sha256:0000000000000000000000000000000000000000000000000000000000000000",
    DefaultModelDetails)

  datatype ServerConfig = ServerConfig(listenAddress: string, listenPort: Port)

  const DefaultServerConfig := ServerConfig("0.0.0.0", 11434)

  datatype LoggingConfig = LoggingConfig(
    logLevel: string,
    logOutputs: seq<string>,
    logFilePath: string,
    logPattern: string,
    requestLogPath: string)

  const DefaultLoggingConfig := LoggingConfig(
    "info",
    ["stdout"],
    "honeypot_operational.log",
    "[%Y-%m-%d %H:%M:%S.%e] [%^%l%$] [%t] %v",
    "honeypot_requests.jsonl")

  datatype ApiBehaviorConfig = ApiBehaviorConfig(
    ollamaVersion: string,
    tagModels: seq<TagModelInfo>,
    showFileMap: map<string, string>)

  const DefaultApiBehaviorConfig := ApiBehaviorConfig("0.6.0", [], map[])

  datatype HoneypotConfig = HoneypotConfig(
    server: ServerConfig,
    logging: LoggingConfig,
    apiBehavior: ApiBehaviorConfig)

  const DefaultHoneypotConfig := HoneypotConfig(DefaultServerConfig, DefaultLoggingConfig, DefaultApiBehaviorConfig)

  /** The JSON library's type errors, by kind. */
  datatype DecodeError =
    | ValueOnNonObject                     // value() applied to something that is not an object
    | TypeMustBe(expected: string)         // a conversion met the wrong kind of value
    | ShowFileMapValueNotString(key: string)

  // ---------------------------------------------------------------------------
  // Conversions of one JSON value

  function AsString(j: Json): (r: Result<string, DecodeError>)
    ensures r.Ok? <==> j.JString?
    ensures r.Ok? ==> r.value == j.s
  {
    if j.JString? then Ok(j.s) else Err(TypeMustBe("string"))
  }

  /**
   * A cast to an unsigned type with `modulus` values: an integer becomes
   * the one value below `modulus` congruent to it, a boolean 0 or 1.
   */
  function AsUnsigned(j: Json, modulus: nat): (r: Result<nat, DecodeError>)
    requires modulus > 1
    ensures r.Ok? <==> j.JInt? || j.JBool?
    ensures r.Ok? ==> r.value < modulus
    ensures j.JInt? && r.Ok? ==> exists q :: j.i == q * modulus + r.value
    ensures j.JInt? && 0 <= j.i < modulus ==> r == Ok(j.i)
    ensures j.JBool? ==> r == Ok(if j.b then 1 else 0)
  {
    match j
    case JInt(i) =>
      Reduce(i, modulus);
      Ok(i % modulus)
    case JBool(b) => Ok(if b then 1 else 0)
    case _ => Err(TypeMustBe("number"))
  }

  /** `i % m` is the value below `m` that differs from `i` by a multiple of `m`. */
  lemma Reduce(i: int, m: nat)
    requires m > 1
    ensures 0 <= i % m < m
    ensures exists q :: i == q * m + i % m
    ensures 0 <= i < m ==> i % m == i
  {
    assert i == (i / m) * m + i % m;
  }

  function AsPort(j: Json): (r: Result<Port, DecodeError>)
    ensures r.Ok? <==> j.JInt? || j.JBool?
    ensures r.Ok? ==> AsUnsigned(j, U16Modulus) == Ok(r.value)
  {
    var n :- AsUnsigned(j, U16Modulus);
    Ok(n)
  }

  /** A 64-bit size: a number cast modulo 2^64; unlike the port, a boolean is rejected. */
  function AsU64(j: Json): (r: Result<U64, DecodeError>)
    ensures r.Ok? <==> j.JInt?
    ensures r.Ok? ==> AsUnsigned(j, U64Modulus) == Ok(r.value)
    ensures j.JBool? ==> r == Err(TypeMustBe("number"))
  {
    if j.JBool? then Err(TypeMustBe("number"))
    else
      var n :- AsUnsigned(j, U64Modulus);
      Ok(n)
  }

  /** A port written as 65536 wraps to 0, and -1 to 65535. */
  lemma PortWrapsAround()
    ensures AsPort(JInt(0x1_0000)) == Ok(0)
    ensures AsPort(JInt(0x1_0000 + 11434)) == Ok(11434)
    ensures AsPort(JInt(-1)) == Ok(0xFFFF)
    ensures AsPort(JBool(true)) == Ok(1)
  {
  }

  /** The strings of an array, failing on the first element that is not a string. */
  function StringsFrom(items: seq<Json>): (r: Result<seq<string>, DecodeError>)
    ensures r.Ok? <==> forall i :: 0 <= i < |items| ==> items[i].JString?
    ensures r.Ok? ==> |r.value| == |items| && forall i :: 0 <= i < |items| ==> items[i] == JString(r.value[i])
  {
    if |items| == 0 then Ok([])
    else match items[0]
      case JString(s) =>
        var rest :- StringsFrom(items[1..]);
        Ok([s] + rest)
      case _ => Err(TypeMustBe("string"))
  }

  function AsStringList(j: Json): (r: Result<seq<string>, DecodeError>)
    ensures r.Ok? <==> j.JArray? && forall i :: 0 <= i < |j.items| ==> j.items[i].JString?
    ensures r.Ok? ==> |r.value| == |j.items| && forall i :: 0 <= i < |j.items| ==> j.items[i] == JString(r.value[i])
  {
    match j
    case JArray(items) => StringsFrom(items)
    case _ => Err(TypeMustBe("array"))
  }

  /** `j.value(key, default)`. */
  function Value<T>(j: Json, key: string, default: T, convert: Json -> Result<T, DecodeError>): (r: Result<T, DecodeError>)
    ensures !j.JObject? ==> r == Err(ValueOnNonObject)
    ensures j.JObject? && !Contains(j, key) ==> r == Ok(default)
    ensures Contains(j, key) ==> r == convert(Get(j, key).value)
  {
    if !j.JObject? then Err(ValueOnNonObject)
    else match Get(j, key)
      case None => Ok(default)
      case Some(v) => convert(v)
  }

  /** `j.value(key, d)` with `convert` does not fail on the field: it is absent or its value converts. */
  ghost predicate Accepts<T>(j: Json, key: string, convert: Json -> Result<T, DecodeError>)
  {
    Get(j, key).None? || convert(Get(j, key).value).Ok?
  }

  /** `v` is what `j.value(key, d)` with `convert` gives for the field: the default when absent, else the converted value. */
  ghost predicate Reads<T>(j: Json, key: string, d: T, convert: Json -> Result<T, DecodeError>, v: T)
  {
    match Get(j, key)
    case None => v == d
    case Some(x) => convert(x) == Ok(v)
  }

  /** `v` is what reading string field `key` of `j` with default `d` gives. */
  ghost predicate ReadString(j: Json, key: string, d: string, v: string)
  {
    if Contains(j, key) then Get(j, key) == Some(JString(v)) else v == d
  }

  // ---------------------------------------------------------------------------
  // ModelDetails

  function ModelDetailsToJson(d: ModelDetails): Json
  {
    JObject([
      ("families", match d.families case Some(l) => StringsToJson(l) case None => JNull),
      ("family", JString(d.family)),
      ("format", JString(d.format)),
      ("parameter_size", JString(d.parameterSize)),
      ("quantization_level", JString(d.quantizationLevel))])
  }

  function StringsToJson(l: seq<string>): (j: Json)
    ensures j.JArray? && |j.items| == |l|
    ensures forall i :: 0 <= i < |l| ==> j.items[i] == JString(l[i])
  {
    JArray(seq(|l|, i requires 0 <= i < |l| => JString(l[i])))
  }

  /** `families` is a list exactly when the key is present and not null; absent or null it is no list. */
  function FamiliesFromJson(j: Json): (r: Result<Option<seq<string>>, DecodeError>)
    ensures Get(j, "families").None? || Get(j, "families") == Some(JNull) ==> r == Ok(None)
    ensures r.Ok? <==> !Contains(j, "families") || Get(j, "families") == Some(JNull)
                       || AsStringList(Get(j, "families").value).Ok?
    ensures r.Ok? ==> (r.value.Some? <==> Contains(j, "families") && Get(j, "families") != Some(JNull))
    ensures r.Ok? && r.value.Some? ==> AsStringList(Get(j, "families").value) == Ok(r.value.value)
    ensures r.Err? ==> Contains(j, "families") && AsStringList(Get(j, "families").value).Err?
  {
    match Get(j, "families")
    case None => Ok(None)
    case Some(v) =>
      if v == JNull then Ok(None)
      else
        var l :- AsStringList(v);
        Ok(Some(l))
  }

  function ModelDetailsFromJson(j: Json): (r: Result<ModelDetails, DecodeError>)
    ensures !j.JObject? ==> r == Err(ValueOnNonObject)
    ensures r.Ok? <==> j.JObject? && Accepts(j, "format", AsString) && Accepts(j, "family", AsString)
                       && Accepts(j, "parameter_size", AsString) && Accepts(j, "quantization_level", AsString)
                       && FamiliesFromJson(j).Ok?
    ensures r.Ok? ==> ReadString(j, "format", DefaultModelDetails.format, r.value.format)
    ensures r.Ok? ==> ReadString(j, "family", DefaultModelDetails.family, r.value.family)
    ensures r.Ok? ==> ReadString(j, "parameter_size", DefaultModelDetails.parameterSize, r.value.parameterSize)
    ensures r.Ok? ==> ReadString(j, "quantization_level", DefaultModelDetails.quantizationLevel, r.value.quantizationLevel)
    ensures r.Ok? ==> Ok(r.value.families) == FamiliesFromJson(j)
  {
    var format :- Value(j, "format", DefaultModelDetails.format, AsString);
    var family :- Value(j, "family", DefaultModelDetails.family, AsString);
    var parameterSize :- Value(j, "parameter_size", DefaultModelDetails.parameterSize, AsString);
    var quantizationLevel :- Value(j, "quantization_level", DefaultModelDetails.quantizationLevel, AsString);
    var families :- FamiliesFromJson(j);
    Ok(ModelDetails(format, family, families, parameterSize, quantizationLevel))
  }

  // ---------------------------------------------------------------------------
  // TagModelInfo, ServerConfig, LoggingConfig: every field written, every field read with its default

  function TagModelInfoToJson(t: TagModelInfo): Json
  {
    JObject([
      ("details", ModelDetailsToJson(t.details)),
      ("digest", JString(t.digest)),
      ("modified_at", JString(t.modifiedAt)),
      ("name", JString(t.name)),
      ("size", JInt(t.size))])
  }

  function TagModelInfoFromJson(j: Json): (r: Result<TagModelInfo, DecodeError>)
    ensures !j.JObject? ==> r == Err(ValueOnNonObject)
    ensures r.Ok? <==> j.JObject? && Accepts(j, "name", AsString) && Accepts(j, "modified_at", AsString)
                       && Accepts(j, "size", AsU64) && Accepts(j, "digest", AsString)
                       && Accepts(j, "details", ModelDetailsFromJson)
    ensures r.Ok? ==> ReadString(j, "name", DefaultTagModelInfo.name, r.value.name)
    ensures r.Ok? ==> ReadString(j, "modified_at", DefaultTagModelInfo.modifiedAt, r.value.modifiedAt)
    ensures r.Ok? ==> ReadString(j, "digest", DefaultTagModelInfo.digest, r.value.digest)
    ensures r.Ok? ==> Reads(j, "size", 0, AsU64, r.value.size)
    ensures r.Ok? ==> Reads(j, "details", DefaultModelDetails, ModelDetailsFromJson, r.value.details)
  {
    var name :- Value(j, "name", DefaultTagModelInfo.name, AsString);
    var modifiedAt :- Value(j, "modified_at", DefaultTagModelInfo.modifiedAt, AsString);
    var size :- Value(j, "size", DefaultTagModelInfo.size, AsU64);
    var digest :- Value(j, "digest", DefaultTagModelInfo.digest, AsString);
    var details :- Value(j, "details", DefaultTagModelInfo.details, ModelDetailsFromJson);
    Ok(TagModelInfo(name, modifiedAt, size, digest, details))
  }

  function TagModelsToJson(models: seq<TagModelInfo>): (j: Json)
    ensures j.JArray? && |j.items| == |models|
    ensures forall i :: 0 <= i < |models| ==> j.items[i] == TagModelInfoToJson(models[i])
  {
    JArray(seq(|models|, i requires 0 <= i < |models| => TagModelInfoToJson(models[i])))
  }

  function TagModelsFrom(items: seq<Json>): (r: Result<seq<TagModelInfo>, DecodeError>)
    ensures r.Ok? <==> forall i :: 0 <= i < |items| ==> TagModelInfoFromJson(items[i]).Ok?
    ensures r.Ok? ==> |r.value| == |items|
    ensures r.Ok? ==> forall i :: 0 <= i < |items| ==> TagModelInfoFromJson(items[i]) == Ok(r.value[i])
  {
    if |items| == 0 then Ok([])
    else
      var first :- TagModelInfoFromJson(items[0]);
      var rest :- TagModelsFrom(items[1..]);
      Ok([first] + rest)
  }

  function AsTagModels(j: Json): (r: Result<seq<TagModelInfo>, DecodeError>)
    ensures r.Ok? <==> j.JArray? && forall i :: 0 <= i < |j.items| ==> TagModelInfoFromJson(j.items[i]).Ok?
    ensures r.Ok? ==> |r.value| == |j.items|
                      && forall i :: 0 <= i < |j.items| ==> TagModelInfoFromJson(j.items[i]) == Ok(r.value[i])
  {
    match j
    case JArray(items) => TagModelsFrom(items)
    case _ => Err(TypeMustBe("array"))
  }

  function ServerConfigToJson(s: ServerConfig): Json
  {
    JObject([("listen_address", JString(s.listenAddress)), ("listen_port", JInt(s.listenPort))])
  }

  function ServerConfigFromJson(j: Json): (r: Result<ServerConfig, DecodeError>)
    ensures !j.JObject? ==> r == Err(ValueOnNonObject)
    ensures r.Ok? <==> j.JObject? && Accepts(j, "listen_address", AsString) && Accepts(j, "listen_port", AsPort)
    ensures r.Ok? ==> ReadString(j, "listen_address", DefaultServerConfig.listenAddress, r.value.listenAddress)
    ensures r.Ok? && !Contains(j, "listen_port") ==> r.value.listenPort == 11434
    ensures r.Ok? && Contains(j, "listen_port") ==> AsUnsigned(Get(j, "listen_port").value, U16Modulus) == Ok(r.value.listenPort)
  {
    var listenAddress :- Value(j, "listen_address", DefaultServerConfig.listenAddress, AsString);
    var listenPort :- Value(j, "listen_port", DefaultServerConfig.listenPort, AsPort);
    Ok(ServerConfig(listenAddress, listenPort))
  }

  function LoggingConfigToJson(l: LoggingConfig): Json
  {
    JObject([
      ("log_file_path", JString(l.logFilePath)),
      ("log_level", JString(l.logLevel)),
      ("log_outputs", StringsToJson(l.logOutputs)),
      ("log_pattern", JString(l.logPattern)),
      ("request_log_path", JString(l.requestLogPath))])
  }

  function LoggingConfigFromJson(j: Json): (r: Result<LoggingConfig, DecodeError>)
    ensures !j.JObject? ==> r == Err(ValueOnNonObject)
    ensures r.Ok? <==> j.JObject? && Accepts(j, "log_level", AsString) && Accepts(j, "log_outputs", AsStringList)
                       && Accepts(j, "log_file_path", AsString) && Accepts(j, "log_pattern", AsString)
                       && Accepts(j, "request_log_path", AsString)
    ensures r.Ok? ==> ReadString(j, "log_level", DefaultLoggingConfig.logLevel, r.value.logLevel)
    ensures r.Ok? ==> ReadString(j, "log_file_path", DefaultLoggingConfig.logFilePath, r.value.logFilePath)
    ensures r.Ok? ==> ReadString(j, "log_pattern", DefaultLoggingConfig.logPattern, r.value.logPattern)
    ensures r.Ok? ==> ReadString(j, "request_log_path", DefaultLoggingConfig.requestLogPath, r.value.requestLogPath)
    ensures r.Ok? ==> Reads(j, "log_outputs", ["stdout"], AsStringList, r.value.logOutputs)
  {
    var logLevel :- Value(j, "log_level", DefaultLoggingConfig.logLevel, AsString);
    var logOutputs :- Value(j, "log_outputs", DefaultLoggingConfig.logOutputs, AsStringList);
    var logFilePath :- Value(j, "log_file_path", DefaultLoggingConfig.logFilePath, AsString);
    var logPattern :- Value(j, "log_pattern", DefaultLoggingConfig.logPattern, AsString);
    var requestLogPath :- Value(j, "request_log_path", DefaultLoggingConfig.requestLogPath, AsString);
    Ok(LoggingConfig(logLevel, logOutputs, logFilePath, logPattern, requestLogPath))
  }

  // ---------------------------------------------------------------------------
  // ApiBehaviorConfig and its show_file_map

  /**
   * Adds the fields of a JSON object to `acc` in order. As with emplace, a key
   * already present keeps its value; the first value that is not a string is
   * a type error naming its key.
   */
  function EmplaceAll(fields: seq<(string, Json)>, acc: map<string, string>): (r: Result<map<string, string>, DecodeError>)
    ensures r.Ok? <==> forall i :: 0 <= i < |fields| ==> fields[i].1.JString?
    ensures r.Ok? ==> r.value.Keys == acc.Keys + KeysOf(fields)
    ensures r.Ok? ==> forall k :: k in acc ==> r.value[k] == acc[k]
    ensures r.Err? ==> exists i :: 0 <= i < |fields| && !fields[i].1.JString?
                          && (forall j :: 0 <= j < i ==> fields[j].1.JString?)
                          && r == Err(ShowFileMapValueNotString(fields[i].0))
  {
    if |fields| == 0 then Ok(acc)
    else match fields[0].1
      case JString(s) =>
        var r := EmplaceAll(fields[1..], if fields[0].0 in acc then acc else acc[fields[0].0 := s]);
        assert r.Ok? ==> forall i :: 1 <= i < |fields| ==> fields[i] == fields[1..][i - 1];
        assert r.Err? ==> exists i :: 0 <= i < |fields| && !fields[i].1.JString?
                            && (forall j :: 0 <= j < i ==> fields[j].1.JString?)
                            && r == Err(ShowFileMapValueNotString(fields[i].0)) by {
          if r.Err? {
            var i :| 0 <= i < |fields[1..]| && !fields[1..][i].1.JString?
                     && (forall j :: 0 <= j < i ==> fields[1..][j].1.JString?)
                     && r == Err(ShowFileMapValueNotString(fields[1..][i].0));
            assert fields[i + 1] == fields[1..][i];
            assert forall j :: 1 <= j < i + 1 ==> fields[j] == fields[1..][j - 1];
          }
        }
        KeysOfCons(fields[0], fields[1..]);
        assert fields == [fields[0]] + fields[1..];
        r
      case _ => Err(ShowFileMapValueNotString(fields[0].0))
  }

  /** The show_file_map of an api_behavior section: the object's string pairs, or empty when absent or not an object. */
  function ShowFileMapFromJson(j: Json): (r: Result<map<string, string>, DecodeError>)
    ensures (!Contains(j, "show_file_map") || !Get(j, "show_file_map").value.JObject?) ==> r == Ok(map[])
    ensures Contains(j, "show_file_map") && Get(j, "show_file_map").value.JObject? ==>
              r == EmplaceAll(Get(j, "show_file_map").value.fields, map[])
  {
    match Get(j, "show_file_map")
    case Some(JObject(fields)) => EmplaceAll(fields, map[])
    case _ => Ok(map[])
  }

  /** The clear-then-emplace loop that fills show_file_map. */
  method ReadShowFileMap(j: Json) returns (r: Result<map<string, string>, DecodeError>)
    ensures r == ShowFileMapFromJson(j)
  {
    var m: map<string, string> := map[];
    var section := Get(j, "show_file_map");
    if section.Some? && section.value.JObject? {
      var fields := section.value.fields;
      var i := 0;
      while i < |fields|
        invariant 0 <= i <= |fields|
        invariant EmplaceAll(fields[i..], m) == EmplaceAll(fields, map[])
      {
        if !fields[i].1.JString? {
          assert fields[i..][1..] == fields[i + 1..];
          return Err(ShowFileMapValueNotString(fields[i].0));
        }
        assert fields[i..][1..] == fields[i + 1..];
        if fields[i].0 !in m {
          m := m[fields[i].0 := fields[i].1.s];
        }
        i := i + 1;
      }
    }
    return Ok(m);
  }

  function ApiBehaviorFromJson(j: Json): (r: Result<ApiBehaviorConfig, DecodeError>)
    ensures !j.JObject? ==> r == Err(ValueOnNonObject)
    ensures r.Ok? <==> j.JObject? && Accepts(j, "ollama_version", AsString) && Accepts(j, "tag_models", AsTagModels)
                       && ShowFileMapFromJson(j).Ok?
    ensures r.Ok? ==> ReadString(j, "ollama_version", DefaultApiBehaviorConfig.ollamaVersion, r.value.ollamaVersion)
    ensures r.Ok? ==> Reads(j, "tag_models", [], AsTagModels, r.value.tagModels)
    ensures r.Ok? ==> Ok(r.value.showFileMap) == ShowFileMapFromJson(j)
  {
    var ollamaVersion :- Value(j, "ollama_version", DefaultApiBehaviorConfig.ollamaVersion, AsString);
    var tagModels :- Value(j, "tag_models", DefaultApiBehaviorConfig.tagModels, AsTagModels);
    var showFileMap :- ShowFileMapFromJson(j);
    Ok(ApiBehaviorConfig(ollamaVersion, tagModels, showFileMap))
  }

  /** The fields of an object holding the pairs of `m`, in some order. */
  ghost function MapFields(m: map<string, string>): (fields: seq<(string, Json)>)
    ensures forall i :: 0 <= i < |fields| ==> fields[i].0 in m && fields[i].1 == JString(m[fields[i].0])
    ensures KeysOf(fields) == m.Keys
    ensures forall i, i' :: 0 <= i < i' < |fields| ==> fields[i].0 != fields[i'].0
    decreases m.Keys
  {
    if m == map[] then []
    else
      var k :| k in m;
      var tail := MapFields(m - {k});
      KeysOfCons((k, JString(m[k])), tail);
      [(k, JString(m[k]))] + tail
  }

  /** A key's first occurrence in the object decides its value in the map, unless `acc` already held it. */
  lemma {:induction false} EmplaceAllFirstWins(fields: seq<(string, Json)>, acc: map<string, string>, i: nat)
    requires EmplaceAll(fields, acc).Ok?
    requires i < |fields| && fields[i].0 !in acc
    requires forall j :: 0 <= j < i ==> fields[j].0 != fields[i].0
    ensures EmplaceAll(fields, acc).value[fields[i].0] == fields[i].1.s
  {
    var acc' := if fields[0].0 in acc then acc else acc[fields[0].0 := fields[0].1.s];
    assert EmplaceAll(fields, acc) == EmplaceAll(fields[1..], acc');
    if i > 0 {
      assert fields[1..][i - 1] == fields[i];
      EmplaceAllFirstWins(fields[1..], acc', i - 1);
    }
  }

  /**
   * `fields` lists each pair of `m` exactly once, in any order, as writing a
   * map into an object does (the key-sorted order included).
   */
  ghost predicate ListsPairs(fields: seq<(string, Json)>, m: map<string, string>)
  {
    && (forall i :: 0 <= i < |fields| ==> fields[i].0 in m && fields[i].1 == JString(m[fields[i].0]))
    && KeysOf(fields) == m.Keys
    && (forall i, i' :: 0 <= i < i' < |fields| ==> fields[i].0 != fields[i'].0)
  }

  /** Reading back the fields of a map, written in any key order, gives the map. */
  lemma ShowFileMapFieldsRoundTrip(m: map<string, string>, fields: seq<(string, Json)>)
    requires ListsPairs(fields, m)
    ensures EmplaceAll(fields, map[]) == Ok(m)
  {
    var r := EmplaceAll(fields, map[]);
    MapFieldsValues(m, fields);
    assert r.value.Keys == m.Keys;
    assert r.value == m;
  }

  /** Reading back the fields of a map gives each key its value in the map. */
  lemma MapFieldsValues(m: map<string, string>, fields: seq<(string, Json)>)
    requires ListsPairs(fields, m)
    ensures EmplaceAll(fields, map[]).Ok?
    ensures forall k :: k in m ==>
              k in EmplaceAll(fields, map[]).value && EmplaceAll(fields, map[]).value[k] == m[k]
  {
    forall k | k in m ensures k in EmplaceAll(fields, map[]).value && EmplaceAll(fields, map[]).value[k] == m[k] {
      assert k in KeysOf(fields);
      var i :| 0 <= i < |fields| && fields[i].0 == k;
      EmplaceAllFirstWins(fields, map[], i);
    }
  }

  ghost function ApiBehaviorToJson(a: ApiBehaviorConfig): Json
  {
    JObject([
      ("ollama_version", JString(a.ollamaVersion)),
      ("show_file_map", JObject(MapFields(a.showFileMap))),
      ("tag_models", TagModelsToJson(a.tagModels))])
  }

  // ---------------------------------------------------------------------------
  // HoneypotConfig

  ghost function HoneypotConfigToJson(c: HoneypotConfig): Json
  {
    JObject([
      ("api_behavior", ApiBehaviorToJson(c.apiBehavior)),
      ("logging", LoggingConfigToJson(c.logging)),
      ("server", ServerConfigToJson(c.server))])
  }

  /** Each section that is absent takes its default. */
  function HoneypotConfigFromJson(j: Json): (r: Result<HoneypotConfig, DecodeError>)
    ensures !j.JObject? ==> r == Err(ValueOnNonObject)
    ensures r.Ok? <==> j.JObject? && Accepts(j, "server", ServerConfigFromJson) && Accepts(j, "logging", LoggingConfigFromJson)
                       && Accepts(j, "api_behavior", ApiBehaviorFromJson)
    ensures r.Ok? && !Contains(j, "server") ==> r.value.server == DefaultServerConfig
    ensures r.Ok? && !Contains(j, "logging") ==> r.value.logging == DefaultLoggingConfig
    ensures r.Ok? && !Contains(j, "api_behavior") ==> r.value.apiBehavior == DefaultApiBehaviorConfig
    ensures r.Ok? && Contains(j, "server") ==> ServerConfigFromJson(Get(j, "server").value) == Ok(r.value.server)
    ensures r.Ok? && Contains(j, "logging") ==> LoggingConfigFromJson(Get(j, "logging").value) == Ok(r.value.logging)
    ensures r.Ok? && Contains(j, "api_behavior") ==> ApiBehaviorFromJson(Get(j, "api_behavior").value) == Ok(r.value.apiBehavior)
  {
    var server :- Value(j, "server", DefaultServerConfig, ServerConfigFromJson);
    var logging :- Value(j, "logging", DefaultLoggingConfig, LoggingConfigFromJson);
    var apiBehavior :- Value(j, "api_behavior", DefaultApiBehaviorConfig, ApiBehaviorFromJson);
    Ok(HoneypotConfig(server, logging, apiBehavior))
  }

  // ---------------------------------------------------------------------------
  // Round trips: writing a record and reading it back gives the same record

  lemma {:induction false} StringsRoundTrip(l: seq<string>)
    ensures AsStringList(StringsToJson(l)) == Ok(l)
  {
    var r := AsStringList(StringsToJson(l));
    assert r.Ok?;
    assert |r.value| == |l|;
    forall i | 0 <= i < |l| ensures r.value[i] == l[i] {
      assert StringsToJson(l).items[i] == JString(r.value[i]);
    }
    assert r.value == l;
  }

  lemma ModelDetailsRoundTrip(d: ModelDetails)
    ensures ModelDetailsFromJson(ModelDetailsToJson(d)) == Ok(d)
  {
    ModelDetailsStringsRoundTrip(d);
    ModelDetailsFamiliesRoundTrip(d);
  }

  /** The string fields of encoded model details read back as written. */
  lemma ModelDetailsStringsRoundTrip(d: ModelDetails)
    ensures var j := ModelDetailsToJson(d);
            && Value(j, "format", DefaultModelDetails.format, AsString) == Ok(d.format)
            && Value(j, "family", DefaultModelDetails.family, AsString) == Ok(d.family)
            && Value(j, "parameter_size", DefaultModelDetails.parameterSize, AsString) == Ok(d.parameterSize)
            && Value(j, "quantization_level", DefaultModelDetails.quantizationLevel, AsString) == Ok(d.quantizationLevel)
  {
    var j := ModelDetailsToJson(d);
    GetField(j, 1);
    GetField(j, 2);
    GetField(j, 3);
    GetField(j, 4);
  }

  /** The families of encoded model details read back as written, a null as no list. */
  lemma ModelDetailsFamiliesRoundTrip(d: ModelDetails)
    ensures FamiliesFromJson(ModelDetailsToJson(d)) == Ok(d.families)
  {
    GetField(ModelDetailsToJson(d), 0);
    if d.families.Some? {
      StringsRoundTrip(d.families.value);
    }
  }

  lemma TagModelInfoRoundTrip(t: TagModelInfo)
    ensures TagModelInfoFromJson(TagModelInfoToJson(t)) == Ok(t)
  {
    TagModelInfoStringsRoundTrip(t);
    TagModelInfoSizeDetailsRoundTrip(t);
  }

  /** The string fields of an encoded catalog entry read back as written. */
  lemma TagModelInfoStringsRoundTrip(t: TagModelInfo)
    ensures var j := TagModelInfoToJson(t);
            && Value(j, "name", DefaultTagModelInfo.name, AsString) == Ok(t.name)
            && Value(j, "modified_at", DefaultTagModelInfo.modifiedAt, AsString) == Ok(t.modifiedAt)
            && Value(j, "digest", DefaultTagModelInfo.digest, AsString) == Ok(t.digest)
  {
    var j := TagModelInfoToJson(t);
    GetField(j, 1);
    GetField(j, 2);
    GetField(j, 3);
  }

  /** The size and the details of an encoded catalog entry read back as written. */
  lemma TagModelInfoSizeDetailsRoundTrip(t: TagModelInfo)
    ensures var j := TagModelInfoToJson(t);
            && Value(j, "size", DefaultTagModelInfo.size, AsU64) == Ok(t.size)
            && Value(j, "details", DefaultTagModelInfo.details, ModelDetailsFromJson) == Ok(t.details)
  {
    var j := TagModelInfoToJson(t);
    GetField(j, 4);
    GetField(j, 0);
    ModelDetailsRoundTrip(t.details);
  }

  lemma {:induction false} TagModelsRoundTrip(models: seq<TagModelInfo>)
    ensures AsTagModels(TagModelsToJson(models)) == Ok(models)
  {
    var items := TagModelsToJson(models).items;
    forall i | 0 <= i < |models| ensures TagModelInfoFromJson(items[i]) == Ok(models[i]) {
      TagModelInfoRoundTrip(models[i]);
    }
    TagModelsFromAll(items, models);
  }

  lemma {:induction false} TagModelsFromAll(items: seq<Json>, models: seq<TagModelInfo>)
    requires |items| == |models|
    requires forall i :: 0 <= i < |items| ==> TagModelInfoFromJson(items[i]) == Ok(models[i])
    ensures TagModelsFrom(items) == Ok(models)
  {
    if |items| > 0 {
      var items', models' := items[1..], models[1..];
      forall i | 0 <= i < |items'| ensures TagModelInfoFromJson(items'[i]) == Ok(models'[i]) {
        assert items'[i] == items[i + 1] && models'[i] == models[i + 1];
      }
      TagModelsFromAll(items', models');
      assert items' == items[1..];
      assert TagModelsFrom(items) == Ok([models[0]] + models');
      assert models == [models[0]] + models';
    }
  }

  lemma ServerConfigRoundTrip(c: ServerConfig)
    ensures ServerConfigFromJson(ServerConfigToJson(c)) == Ok(c)
  {
    var j := ServerConfigToJson(c);
    GetField(j, 0);
    GetField(j, 1);
  }

  lemma LoggingConfigRoundTrip(c: LoggingConfig)
    ensures LoggingConfigFromJson(LoggingConfigToJson(c)) == Ok(c)
  {
    LoggingConfigStringsRoundTrip(c);
    var j := LoggingConfigToJson(c);
    assert Value(j, "log_outputs", DefaultLoggingConfig.logOutputs, AsStringList) == Ok(c.logOutputs) by {
      GetField(j, 2);
      StringsRoundTrip(c.logOutputs);
    }
  }

  /** The string fields of an encoded logging section read back as written. */
  lemma LoggingConfigStringsRoundTrip(c: LoggingConfig)
    ensures var j := LoggingConfigToJson(c);
            && Value(j, "log_level", DefaultLoggingConfig.logLevel, AsString) == Ok(c.logLevel)
            && Value(j, "log_file_path", DefaultLoggingConfig.logFilePath, AsString) == Ok(c.logFilePath)
            && Value(j, "log_pattern", DefaultLoggingConfig.logPattern, AsString) == Ok(c.logPattern)
            && Value(j, "request_log_path", DefaultLoggingConfig.requestLogPath, AsString) == Ok(c.requestLogPath)
  {
    var j := LoggingConfigToJson(c);
    GetField(j, 0);
    GetField(j, 1);
    GetField(j, 3);
    GetField(j, 4);
  }

  lemma ApiBehaviorRoundTrip(a: ApiBehaviorConfig)
    ensures ApiBehaviorFromJson(ApiBehaviorToJson(a)) == Ok(a)
  {
    var j := ApiBehaviorToJson(a);
    GetField(j, 0);
    GetField(j, 1);
    GetField(j, 2);
    TagModelsRoundTrip(a.tagModels);
    ShowFileMapFieldsRoundTrip(a.showFileMap, MapFields(a.showFileMap));
  }

  /** Writing a whole configuration and reading it back gives the same configuration. */
  lemma HoneypotConfigRoundTrip(c: HoneypotConfig)
    ensures HoneypotConfigFromJson(HoneypotConfigToJson(c)) == Ok(c)
  {
    var j := HoneypotConfigToJson(c);
    GetField(j, 0);
    GetField(j, 1);
    GetField(j, 2);
    ServerConfigRoundTrip(c.server);
    LoggingConfigRoundTrip(c.logging);
    ApiBehaviorRoundTrip(c.apiBehavior);
  }

  /** A document that sets only the port keeps every other default. */
  lemma PortOnlyDocument()
    ensures HoneypotConfigFromJson(JObject([("server", JObject([("listen_port", JInt(8080))]))]))
            == Ok(DefaultHoneypotConfig.(server := ServerConfig("0.0.0.0", 8080)))
  {
    var server := JObject([("listen_port", JInt(8080))]);
    GetField(server, 0);
    GetField(JObject([("server", server)]), 0);
  }

  /**
   * A port of 65536 decodes without error to 0 (the cast wraps), so the
   * load rejects it as a zero port rather than as a type error.
   */
  lemma WrappedPortDecodesToZero()
    ensures HoneypotConfigFromJson(JObject([("server", JObject([("listen_port", JInt(0x1_0000))]))]))
            == Ok(DefaultHoneypotConfig.(server := ServerConfig("0.0.0.0", 0)))
  {
    var server := JObject([("listen_port", JInt(0x1_0000))]);
    GetField(server, 0);
    GetField(JObject([("server", server)]), 0);
  }

  /** A catalog entry whose size is a boolean makes the whole configuration fail with a type error. */
  lemma BooleanSizeRejected()
    ensures AsU64(JBool(true)) == Err(TypeMustBe("number"))
    ensures TagModelInfoFromJson(JObject([("size", JBool(true))])) == Err(TypeMustBe("number"))
    ensures HoneypotConfigFromJson(JObject([("api_behavior", JObject([("tag_models", JArray([JObject([("size", JBool(true))])]))]))]))
            == Err(TypeMustBe("number"))
  {
    var entry := JObject([("size", JBool(true))]);
    var api := JObject([("tag_models", JArray([entry]))]);
    GetField(entry, 0);
    GetField(api, 0);
    GetField(JObject([("api_behavior", api)]), 0);
  }

  /** An empty document reads as the default configuration, whose port is not 0. */
  lemma EmptyDocumentIsDefault()
    ensures HoneypotConfigFromJson(JObject([])) == Ok(DefaultHoneypotConfig)
    ensures DefaultHoneypotConfig.server.listenPort != 0
    ensures DefaultHoneypotConfig.logging.logOutputs == ["stdout"]
    ensures DefaultHoneypotConfig.logging.logFilePath != [] && DefaultHoneypotConfig.logging.requestLogPath != []
  {
  }
}
