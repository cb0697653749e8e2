/**
 * POST /api/show: validate the request, map the model name to its detail
 * file, serve the document from the cache or read and cache it, and null
 * the three verbose tokenizer fields unless `verbose` is true.
 */
module Show {
  import opened Wrappers
  import opened Json
  import opened Paths
  import opened Http
  import opened State
  import opened CStrings

  /** What reading a detail file from disk produces. */
  datatype DetailRead = Unopenable | InvalidJson | ReadFailed | Readable(doc: Json)

  const MergesKey: string := "tokenizer.ggml.merges"
  const TokenTypeKey: string := "tokenizer.ggml.token_type"
  const TokensKey: string := "tokenizer.ggml.tokens"

  /** `verbose` is honoured only when present as a boolean; anything else means false. */
  function VerboseFlag(doc: Json): (verbose: bool)
    ensures verbose <==> Get(doc, "verbose") == Some(JBool(true))
  {
    match Get(doc, "verbose")
    case Some(JBool(b)) => b
    case _ => false
  }

  /** The cache key and file path: the mapped path resolved against the relative directory "config". */
  function DetailCacheKey(relative: string): (key: string)
    ensures !IsAbsolute(relative) ==> key == "config/" + relative
    ensures IsAbsolute(relative) ==> key == relative
  {
    Join("config", relative)
  }

  /**
   * `model_info` with the three verbose tokenizer keys set to null: keys
   * already present keep their place, absent ones are added at the end in
   * the order merges, token_type, tokens.
   */
  function NullVerboseKeys(info: Json): (r: Json)
    requires info.JObject?
    ensures r.JObject?
    ensures Get(r, MergesKey) == Some(JNull) && Get(r, TokenTypeKey) == Some(JNull) && Get(r, TokensKey) == Some(JNull)
    ensures forall k :: k != MergesKey && k != TokenTypeKey && k != TokensKey ==> Get(r, k) == Get(info, k)
    ensures Names(r.fields)
            == NamesAfterAssign(NamesAfterAssign(NamesAfterAssign(Names(info.fields), MergesKey), TokenTypeKey), TokensKey)
  {
    assert MergesKey[15] != TokenTypeKey[15] && MergesKey[15] != TokensKey[15];
    assert |TokenTypeKey| != |TokensKey|;
    var info1 := Assign(info, MergesKey, JNull);
    var info2 := Assign(info1, TokenTypeKey, JNull);
    var info3 := Assign(info2, TokensKey, JNull);
    assert Get(info3, MergesKey) == Get(info2, MergesKey) == Get(info1, MergesKey);
    AssignNames(info, MergesKey, JNull);
    AssignNames(info1, TokenTypeKey, JNull);
    AssignNames(info2, TokensKey, JNull);
    info3
  }

  /**
   * The non-verbose view: when the document has a `model_info` object, its
   * verbose tokenizer keys are nulled; nothing else changes. Without such
   * an object the document is returned as is.
   */
  function StripVerboseFields(doc: Json): (r: Json)
    ensures Keys(r) == Keys(doc)
    ensures doc.JObject? ==> r.JObject? && Names(r.fields) == Names(doc.fields)
    ensures forall k :: k != "model_info" ==> Get(r, k) == Get(doc, k)
    ensures match Get(doc, "model_info")
            case Some(JObject(fs)) => Get(r, "model_info") == Some(NullVerboseKeys(JObject(fs)))
            case _ => r == doc
  {
    match Get(doc, "model_info")
    case Some(JObject(fs)) =>
      var info := NullVerboseKeys(JObject(fs));
      AssignExisting(doc, "model_info", info);
      Assign(doc, "model_info", info)
    case _ => doc
  }

  /** The body of a successful show: the document, stripped unless verbose. */
  function ShownDocument(doc: Json, verbose: bool): Json
  {
    if verbose then doc else StripVerboseFields(doc)
  }

  /**
   * The file a name resolves to, as the lookups see it: the map and the
   * cache are searched, and the file opened, by the C string of each
   * argument, so a name or a mapped path is cut at its first NUL.
   */
  function DetailKey(fileMap: map<string, string>, name: string): (key: string)
    requires CStr(name) in fileMap
    ensures !HasNul(key)
    ensures !HasNul(fileMap[CStr(name)]) ==> key == DetailCacheKey(fileMap[CStr(name)])
  {
    CStrChangesOnlyNul(DetailCacheKey(fileMap[CStr(name)]));
    DetailCacheKeyNulFree(fileMap[CStr(name)]);
    CStr(DetailCacheKey(fileMap[CStr(name)]))
  }

  /** The cache key adds no NUL of its own. */
  lemma DetailCacheKeyNulFree(relative: string)
    ensures !HasNul(relative) ==> !HasNul(DetailCacheKey(relative))
  {
    var key := DetailCacheKey(relative);
    if !HasNul(relative) && !IsAbsolute(relative) {
      assert key == "config/" + relative;
      forall i | 0 <= i < |key| ensures key[i] != '\0' {
        if i >= 7 {
          assert key[i] == relative[i - 7];
        }
      }
    }
  }

  /**
   * The whole request as a value: the response and the detail cache
   * afterwards, given the name -> file map, the cache before, and what
   * reading each file path from disk would produce.
   */
  function ShowOutcome(fileMap: map<string, string>, cache: map<string, Json>, request: RequestBody,
                       disk: string -> DetailRead): (r: (Response, map<string, Json>))
    ensures r.0.status in {StatusOk, StatusBadRequest, StatusNotFound, StatusInternalServerError}
    ensures cache.Keys <= r.1.Keys && forall k :: k in cache ==> r.1[k] == cache[k]
    ensures r.0.status == StatusOk <==>
              request.Parsed? && RequestModel(request.doc).Some?
              && CStr(RequestModel(request.doc).value) in fileMap
              && var key := DetailKey(fileMap, RequestModel(request.doc).value);
                 key in cache || disk(key).Readable?
  {
    match request
    case EmptyBody => (ErrorResponse(StatusBadRequest, "missing request body"), cache)
    case Unparseable => (ErrorResponse(StatusBadRequest, "invalid json request format"), cache)
    case Parsed(doc) =>
      match RequestModel(doc)
      case None => (ErrorResponse(StatusBadRequest, "missing 'model' field in request body"), cache)
      case Some(name) =>
        var verbose := VerboseFlag(doc);
        if CStr(name) !in fileMap then (ErrorResponse(StatusNotFound, NotFoundMessage(name)), cache)
        else
          var key := DetailKey(fileMap, name);
          if key in cache then (Response(StatusOk, JsonBody(ShownDocument(cache[key], verbose))), cache)
          else match disk(key)
            case Unopenable =>
              (ErrorResponse(StatusInternalServerError,
                             "internal error: detail file for model '" + name + "' missing or unreadable"), cache)
            case InvalidJson =>
              (ErrorResponse(StatusInternalServerError,
                             "internal error: detail file for model '" + name + "' is invalid JSON"), cache)
            case ReadFailed =>
              (Response(StatusInternalServerError, TextBody("Internal Server Error reading details")), cache)
            case Readable(d) => (Response(StatusOk, JsonBody(ShownDocument(d, verbose))), cache[key := d])
  }

  /** The handler over the shared state; only the detail cache may change. */
  method HandleShow(state: HoneypotState, request: RequestBody, disk: string -> DetailRead) returns (response: Response)
    modifies state`showCache
    ensures (response, state.showCache) == ShowOutcome(state.showFileMap, old(state.showCache), request, disk)
  {
    if request.EmptyBody? {
      return ErrorResponse(StatusBadRequest, "missing request body");
    }
    if request.Unparseable? {
      return ErrorResponse(StatusBadRequest, "invalid json request format");
    }
    var doc := request.doc;
    var model := RequestModel(doc);
    if model.None? {
      return ErrorResponse(StatusBadRequest, "missing 'model' field in request body");
    }
    var name := model.value;
    var verbose := VerboseFlag(doc);
    var relative := state.GetDetailFilePath(name);
    if relative.None? {
      return ErrorResponse(StatusNotFound, NotFoundMessage(name));
    }
    var fullPath := DetailCacheKey(relative.value);
    var cached := state.GetCachedDetail(fullPath);
    var details: Json;
    if cached.Some? {
      details := cached.value;
    } else {
      var read := disk(CStr(fullPath));
      match read {
        case Unopenable =>
          return ErrorResponse(StatusInternalServerError,
                               "internal error: detail file for model '" + name + "' missing or unreadable");
        case InvalidJson =>
          return ErrorResponse(StatusInternalServerError,
                               "internal error: detail file for model '" + name + "' is invalid JSON");
        case ReadFailed =>
          return Response(StatusInternalServerError, TextBody("Internal Server Error reading details"));
        case Readable(d) =>
          details := d;
          state.CacheDetail(fullPath, details);
      }
    }
    if !verbose {
      details := StripVerboseFields(details);
    }
    response := Response(StatusOk, JsonBody(details));
  }

  // ---------------------------------------------------------------------------
  // Properties of the show path

  /** Malformed requests get 400, with the message for their case, before any state is consulted. */
  lemma BadRequestIgnoresState(fileMap1: map<string, string>, cache1: map<string, Json>,
                               fileMap2: map<string, string>, cache2: map<string, Json>,
                               request: RequestBody, disk1: string -> DetailRead, disk2: string -> DetailRead)
    requires !request.Parsed? || RequestModel(request.doc).None?
    ensures ShowOutcome(fileMap1, cache1, request, disk1).0 == ShowOutcome(fileMap2, cache2, request, disk2).0
    ensures ShowOutcome(fileMap1, cache1, request, disk1).0
            == ErrorResponse(StatusBadRequest,
                             match request
                             case EmptyBody => "missing request body"
                             case Unparseable => "invalid json request format"
                             case Parsed(_) => "missing 'model' field in request body")
    ensures ShowOutcome(fileMap1, cache1, request, disk1).1 == cache1
  {
  }

  /** A name that is not mapped (as a C string) is a 404 naming the model, and nothing is cached. */
  lemma UnmappedModelNotFound(fileMap: map<string, string>, cache: map<string, Json>, doc: Json,
                              disk: string -> DetailRead)
    requires RequestModel(doc).Some? && CStr(RequestModel(doc).value) !in fileMap
    ensures ShowOutcome(fileMap, cache, Parsed(doc), disk)
            == (ErrorResponse(StatusNotFound, NotFoundMessage(RequestModel(doc).value)), cache)
  {
  }

  /** A cache hit does not read the disk: the outcome is the same whatever the disk holds. */
  lemma CacheHitIgnoresDisk(fileMap: map<string, string>, cache: map<string, Json>, doc: Json,
                            disk1: string -> DetailRead, disk2: string -> DetailRead)
    requires RequestModel(doc).Some? && CStr(RequestModel(doc).value) in fileMap
    requires DetailKey(fileMap, RequestModel(doc).value) in cache
    ensures ShowOutcome(fileMap, cache, Parsed(doc), disk1) == ShowOutcome(fileMap, cache, Parsed(doc), disk2)
    ensures var key := DetailKey(fileMap, RequestModel(doc).value);
            ShowOutcome(fileMap, cache, Parsed(doc), disk1)
            == (Response(StatusOk, JsonBody(ShownDocument(cache[key], VerboseFlag(doc)))), cache)
  {
  }

  /**
   * A miss that reads a document answers with it (stripped unless verbose)
   * and caches it unstripped, so a later verbose request sees every field.
   */
  lemma CacheMissStoresFullDocument(fileMap: map<string, string>, cache: map<string, Json>, doc: Json,
                                    disk: string -> DetailRead)
    requires RequestModel(doc).Some? && CStr(RequestModel(doc).value) in fileMap
    requires DetailKey(fileMap, RequestModel(doc).value) !in cache
    requires disk(DetailKey(fileMap, RequestModel(doc).value)).Readable?
    ensures var key := DetailKey(fileMap, RequestModel(doc).value);
            ShowOutcome(fileMap, cache, Parsed(doc), disk)
            == (Response(StatusOk, JsonBody(ShownDocument(disk(key).doc, VerboseFlag(doc)))),
                cache[key := disk(key).doc])
  {
  }

  /**
   * A detail file that cannot be used is a 500 whose body names the
   * failure, and it is never cached, so the next request tries the disk again.
   */
  lemma ReadFailureNotCached(fileMap: map<string, string>, cache: map<string, Json>, doc: Json,
                             disk: string -> DetailRead)
    requires RequestModel(doc).Some? && CStr(RequestModel(doc).value) in fileMap
    requires DetailKey(fileMap, RequestModel(doc).value) !in cache
    requires !disk(DetailKey(fileMap, RequestModel(doc).value)).Readable?
    ensures var name := RequestModel(doc).value;
            ShowOutcome(fileMap, cache, Parsed(doc), disk).0
            == match disk(DetailKey(fileMap, name))
               case Unopenable =>
                 ErrorResponse(StatusInternalServerError,
                               "internal error: detail file for model '" + name + "' missing or unreadable")
               case InvalidJson =>
                 ErrorResponse(StatusInternalServerError,
                               "internal error: detail file for model '" + name + "' is invalid JSON")
               case _ => Response(StatusInternalServerError, TextBody("Internal Server Error reading details"))
    ensures ShowOutcome(fileMap, cache, Parsed(doc), disk).1 == cache
  {
  }

  /**
   * Once a show has succeeded, repeating it gives the same response and
   * the same cache whatever the disk holds by then.
   */
  lemma RepeatedShowIsStable(fileMap: map<string, string>, cache: map<string, Json>, request: RequestBody,
                             disk1: string -> DetailRead, disk2: string -> DetailRead)
    requires ShowOutcome(fileMap, cache, request, disk1).0.status == StatusOk
    ensures var (response, cache') := ShowOutcome(fileMap, cache, request, disk1);
            ShowOutcome(fileMap, cache', request, disk2) == (response, cache')
  {
    var name := RequestModel(request.doc).value;
    var key := DetailKey(fileMap, name);
    var cache' := ShowOutcome(fileMap, cache, request, disk1).1;
    assert key in cache';
    if key !in cache {
      assert cache'[key] == disk1(key).doc;
    }
  }

  /**
   * A verbose request returns the cached document exactly; a non-verbose
   * one nulls only the verbose keys and keeps the key order of the document.
   */
  lemma VerboseShowsEverything(doc: Json)
    ensures ShownDocument(doc, true) == doc
    ensures Keys(ShownDocument(doc, false)) == Keys(doc)
    ensures doc.JObject? ==> Names(ShownDocument(doc, false).fields) == Names(doc.fields)
    ensures forall k :: k != "model_info" ==> Get(ShownDocument(doc, false), k) == Get(doc, k)
  {
  }

  /**
   * Two requests whose names agree up to the first NUL, with the same
   * verbose flag, succeed together and then give the same response and cache.
   */
  lemma ShowSeesCString(fileMap: map<string, string>, cache: map<string, Json>, doc1: Json, doc2: Json,
                        disk: string -> DetailRead)
    requires RequestModel(doc1).Some? && RequestModel(doc2).Some?
    requires CStr(RequestModel(doc1).value) == CStr(RequestModel(doc2).value)
    requires VerboseFlag(doc1) == VerboseFlag(doc2)
    ensures ShowOutcome(fileMap, cache, Parsed(doc1), disk).0.status == StatusOk
            <==> ShowOutcome(fileMap, cache, Parsed(doc2), disk).0.status == StatusOk
    ensures ShowOutcome(fileMap, cache, Parsed(doc1), disk).0.status == StatusOk
            ==> ShowOutcome(fileMap, cache, Parsed(doc1), disk) == ShowOutcome(fileMap, cache, Parsed(doc2), disk)
  {
  }

  /** A model name with a NUL in it is looked up as its part before the NUL. */
  lemma NulNameShowsPrefixModel(fileMap: map<string, string>, cache: map<string, Json>,
                                name: string, suffix: string, disk: string -> DetailRead)
    requires !HasNul(name)
    ensures var full := Parsed(JObject([("model", JString(name + "\0" + suffix))]));
            var prefix := Parsed(JObject([("model", JString(name))]));
            && (ShowOutcome(fileMap, cache, full, disk).0.status == StatusOk
                <==> ShowOutcome(fileMap, cache, prefix, disk).0.status == StatusOk)
            && (ShowOutcome(fileMap, cache, full, disk).0.status == StatusOk
                ==> ShowOutcome(fileMap, cache, full, disk) == ShowOutcome(fileMap, cache, prefix, disk))
  {
    var fullName := name + "\0" + suffix;
    assert fullName[..|name|] == name;
    CStrStopsAtFirstNul(fullName, |name|);
    CStrOfNulFree(name);
    var full := JObject([("model", JString(fullName))]);
    var prefix := JObject([("model", JString(name))]);
    GetField(full, 0);
    GetField(prefix, 0);
    ShowSeesCString(fileMap, cache, full, prefix, disk);
  }
}
