/**
 * Loading and validating the configuration: read the document, decode it
 * with defaults, reject a zero port, and reject the whole load when any
 * detail file named in show_file_map does not exist, listing all of them.
 */
module ConfigLoader {
  import opened Wrappers
  import opened Json
  import opened Config
  import opened Paths
  import opened CStrings

  /** What opening and parsing the configuration file gave. */
  datatype ConfigSource =
    | Unopenable
    | SyntaxError
    | Document(json: Json)

  datatype LoadError =
    | OpenFailed(path: string)
    | ParseFailed(path: string)
    | ProcessingFailed(path: string, cause: DecodeError)
    | ZeroPort
    | MissingDetailFiles(path: string, files: seq<string>)

  /**
   * The detail file `file`, taken relative to `dir`, does not exist. The
   * existence test sees the joined path as a C string, so it stops at the
   * first NUL.
   */
  predicate FileMissing(dir: string, file: string, existing: set<string>)
  {
    CStr(Join(dir, file)) !in existing
  }

  /** The detail files named in `fileMap` that do not exist. */
  ghost function AbsentFiles(dir: string, fileMap: map<string, string>, existing: set<string>): set<string>
  {
    set file | file in fileMap.Values && FileMissing(dir, file, existing)
  }

  /** The keys among `keys` whose detail file is one of `absent`. */
  ghost function MissingAmong(fileMap: map<string, string>, absent: set<string>, keys: set<string>): set<string>
  {
    set k | k in keys && k in fileMap && fileMap[k] in absent
  }

  /** The keys among `keys` that map to `file`, when `file` is one of `absent`. */
  ghost function MissingWith(fileMap: map<string, string>, absent: set<string>, keys: set<string>, file: string): set<string>
  {
    set k | k in keys && k in fileMap && fileMap[k] == file && file in absent
  }

  /** The keys of `fileMap` whose detail file does not exist. */
  ghost function MissingKeys(dir: string, fileMap: map<string, string>, existing: set<string>): set<string>
  {
    MissingAmong(fileMap, AbsentFiles(dir, fileMap, existing), fileMap.Keys)
  }

  /**
   * `files` lists every missing detail file of `fileMap` once per map entry
   * that names it, and nothing else.
   */
  ghost predicate ListsMissingFiles(dir: string, fileMap: map<string, string>, existing: set<string>, files: seq<string>)
  {
    && (forall i :: 0 <= i < |files| ==> files[i] in fileMap.Values && FileMissing(dir, files[i], existing))
    && (forall k :: k in fileMap && FileMissing(dir, fileMap[k], existing) ==> fileMap[k] in files)
    && |files| == |MissingKeys(dir, fileMap, existing)|
    && CountsMissing(fileMap, AbsentFiles(dir, fileMap, existing), fileMap.Keys, files)
  }

  /** Each file occurs in `files` once per key among `keys` that maps to it, when it is one of `absent`. */
  ghost predicate CountsMissing(fileMap: map<string, string>, absent: set<string>, keys: set<string>, files: seq<string>)
  {
    forall file :: multiset(files)[file] == |MissingWith(fileMap, absent, keys, file)|
  }

  /** The loop over the map's values that collects every file that does not exist. */
  method CollectMissingFiles(dir: string, fileMap: map<string, string>, existing: set<string>) returns (missing: seq<string>)
    ensures ListsMissingFiles(dir, fileMap, existing, missing)
  {
    missing := [];
    var remaining := fileMap.Keys;
    ghost var done: set<string> := {};
    ghost var absent := AbsentFiles(dir, fileMap, existing);
    while remaining != {}
      invariant remaining <= fileMap.Keys && done == fileMap.Keys - remaining
      invariant |missing| == |MissingAmong(fileMap, absent, done)|
      invariant CountsMissing(fileMap, absent, done, missing)
      decreases remaining
    {
      var k :| k in remaining;
      var gone := FileMissing(dir, fileMap[k], existing);
      AbsentFile(dir, fileMap, existing, k);
      MissingAmongStep(fileMap, absent, done, k);
      CountsMissingStep(fileMap, absent, done, k, missing);
      if gone {
        missing := missing + [fileMap[k]];
      }
      remaining := remaining - {k};
      done := done + {k};
    }
    assert done == fileMap.Keys;
    CollectedListsMissing(dir, fileMap, existing, missing);
  }

  /** What the loop establishes about the absent files is the listing property. */
  lemma CollectedListsMissing(dir: string, fileMap: map<string, string>, existing: set<string>, files: seq<string>)
    requires |files| == |MissingKeys(dir, fileMap, existing)|
    requires CountsMissing(fileMap, AbsentFiles(dir, fileMap, existing), fileMap.Keys, files)
    ensures ListsMissingFiles(dir, fileMap, existing, files)
  {
    var absent := AbsentFiles(dir, fileMap, existing);
    forall i | 0 <= i < |files| ensures files[i] in fileMap.Values && FileMissing(dir, files[i], existing) {
      assert multiset(files)[files[i]] > 0;
      var k :| k in MissingWith(fileMap, absent, fileMap.Keys, files[i]);
    }
    forall k | k in fileMap && FileMissing(dir, fileMap[k], existing) ensures fileMap[k] in files {
      assert fileMap[k] in absent;
      assert k in MissingWith(fileMap, absent, fileMap.Keys, fileMap[k]);
      assert multiset(files)[fileMap[k]] > 0;
    }
  }

  /** The file of a key is absent exactly when it is missing. */
  lemma AbsentFile(dir: string, fileMap: map<string, string>, existing: set<string>, k: string)
    requires k in fileMap
    ensures fileMap[k] in AbsentFiles(dir, fileMap, existing) <==> FileMissing(dir, fileMap[k], existing)
  {
  }

  /** Visiting one more key adds it to the missing keys exactly when its file is absent. */
  lemma MissingAmongStep(fileMap: map<string, string>, absent: set<string>, done: set<string>, k: string)
    requires k in fileMap && k !in done
    ensures |MissingAmong(fileMap, absent, done + {k})|
            == |MissingAmong(fileMap, absent, done)| + (if fileMap[k] in absent then 1 else 0)
  {
    if fileMap[k] in absent {
      assert MissingAmong(fileMap, absent, done + {k}) == MissingAmong(fileMap, absent, done) + {k};
    } else {
      assert MissingAmong(fileMap, absent, done + {k}) == MissingAmong(fileMap, absent, done);
    }
  }

  /** Appending the visited key's file when it is absent keeps the counts right. */
  lemma CountsMissingStep(fileMap: map<string, string>, absent: set<string>, done: set<string>, k: string,
                          files: seq<string>)
    requires k in fileMap && k !in done
    requires CountsMissing(fileMap, absent, done, files)
    ensures CountsMissing(fileMap, absent, done + {k}, if fileMap[k] in absent then files + [fileMap[k]] else files)
  {
    var files' := if fileMap[k] in absent then files + [fileMap[k]] else files;
    forall file ensures multiset(files')[file] == |MissingWith(fileMap, absent, done + {k}, file)| {
      MissingWithStep(fileMap, absent, done, k, file);
    }
  }

  /** The same step, counted for one file name. */
  lemma MissingWithStep(fileMap: map<string, string>, absent: set<string>, done: set<string>, k: string, file: string)
    requires k in fileMap && k !in done
    ensures |MissingWith(fileMap, absent, done + {k}, file)|
            == |MissingWith(fileMap, absent, done, file)| + (if fileMap[k] in absent && file == fileMap[k] then 1 else 0)
  {
    if fileMap[k] in absent && file == fileMap[k] {
      assert MissingWith(fileMap, absent, done + {k}, file) == MissingWith(fileMap, absent, done, file) + {k};
    } else {
      assert MissingWith(fileMap, absent, done + {k}, file) == MissingWith(fileMap, absent, done, file);
    }
  }

  /** Parse, decode, then validate: the configuration is returned unchanged only when every check passes. */
  method LoadConfig(configPath: string, configDir: string, source: ConfigSource, existing: set<string>)
    returns (r: Result<HoneypotConfig, LoadError>)
    ensures source.Unopenable? ==> r == Err(OpenFailed(configPath))
    ensures source.SyntaxError? ==> r == Err(ParseFailed(configPath))
    ensures source.Document? && HoneypotConfigFromJson(source.json).Err? ==>
              r == Err(ProcessingFailed(configPath, HoneypotConfigFromJson(source.json).error))
    ensures source.Document? && HoneypotConfigFromJson(source.json).Ok? ==>
              var c := HoneypotConfigFromJson(source.json).value;
              && (c.server.listenPort == 0 ==> r == Err(ZeroPort))
              && (c.server.listenPort != 0 && MissingKeys(configDir, c.apiBehavior.showFileMap, existing) == {} ==> r == Ok(c))
              && (c.server.listenPort != 0 && MissingKeys(configDir, c.apiBehavior.showFileMap, existing) != {} ==>
                    r.Err? && r.error.MissingDetailFiles? && r.error.path == configPath &&
                    ListsMissingFiles(configDir, c.apiBehavior.showFileMap, existing, r.error.files))
    ensures r.Ok? ==> r.value.server.listenPort != 0
    ensures r.Ok? ==> forall k :: k in r.value.apiBehavior.showFileMap ==> !FileMissing(configDir, r.value.apiBehavior.showFileMap[k], existing)
  {
    var json: Json;
    match source {
      case Unopenable => return Err(OpenFailed(configPath));
      case SyntaxError => return Err(ParseFailed(configPath));
      case Document(j) => json := j;
    }
    var decoded := HoneypotConfigFromJson(json);
    if decoded.Err? {
      return Err(ProcessingFailed(configPath, decoded.error));
    }
    var config := decoded.value;
    if config.server.listenPort == 0 {
      return Err(ZeroPort);
    }
    var missing := CollectMissingFiles(configDir, config.apiBehavior.showFileMap, existing);
    if |missing| != 0 {
      return Err(MissingDetailFiles(configPath, missing));
    }
    ghost var m := config.apiBehavior.showFileMap;
    assert MissingKeys(configDir, m, existing) == {};
    assert forall k :: k in m ==> k !in MissingKeys(configDir, m, existing);
    return Ok(config);
  }
}
