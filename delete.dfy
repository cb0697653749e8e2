/**
 * DELETE /api/delete: validate the request, then remove the model from the
 * catalog, the loaded list and the detail map; 200 with no body when
 * something was removed, 404 otherwise.
 */
module Delete {
  import opened Wrappers
  import opened Json
  import opened Config
  import opened FakeData
  import opened Http
  import opened State
  import opened CStrings
  import Show

  /** The model name to delete, or the 400 response for a malformed request. */
  function DeleteTarget(request: RequestBody): (r: Result<string, Response>)
    ensures r.Ok? <==> request.Parsed? && RequestModel(request.doc).Some?
    ensures r.Ok? ==> r.value == RequestModel(request.doc).value
    ensures r.Err? ==> r.error.status == StatusBadRequest && r.error.body.JsonBody?
    ensures request.EmptyBody? ==> r == Err(ErrorResponse(StatusBadRequest, "missing request body"))
    ensures request.Unparseable? ==> r == Err(ErrorResponse(StatusBadRequest, "invalid json request format"))
    ensures request.Parsed? && RequestModel(request.doc).None?
            ==> r == Err(ErrorResponse(StatusBadRequest, "missing 'model' field in request"))
  {
    match request
    case EmptyBody => Err(ErrorResponse(StatusBadRequest, "missing request body"))
    case Unparseable => Err(ErrorResponse(StatusBadRequest, "invalid json request format"))
    case Parsed(doc) =>
      match RequestModel(doc)
      case None => Err(ErrorResponse(StatusBadRequest, "missing 'model' field in request"))
      case Some(name) => Ok(name)
  }

  /** 200 with an empty body when something was removed, else 404 naming the model. */
  function DeleteResponse(name: string, deleted: bool): (r: Response)
    ensures r.status == StatusOk <==> deleted
    ensures deleted ==> r.body == NoBody
    ensures !deleted ==> r == ErrorResponse(StatusNotFound, NotFoundMessage(name))
  {
    if deleted then Response(StatusOk, NoBody) else ErrorResponse(StatusNotFound, NotFoundMessage(name))
  }

  method HandleDelete(state: HoneypotState, request: RequestBody) returns (response: Response)
    requires state.Valid()
    modifies state`availableModels, state`loadedModels, state`showFileMap
    ensures state.Valid()
    ensures match DeleteTarget(request)
            case Err(rejection) =>
              && response == rejection
              && unchanged(state`availableModels, state`loadedModels, state`showFileMap)
            case Ok(name) =>
              && state.availableModels == WithoutModel(old(state.availableModels), name)
              && state.loadedModels == WithoutLoaded(old(state.loadedModels), name)
              && state.showFileMap == old(state.showFileMap) - {CStr(name)}
              && response == DeleteResponse(name, HasModel(old(state.availableModels), name)
                                                  || IsLoaded(old(state.loadedModels), name))
  {
    var target := DeleteTarget(request);
    if target.Err? {
      return target.error;
    }
    var name := target.value;
    var deleted := state.DeleteModel(name);
    response := DeleteResponse(name, deleted);
  }

  /** Deleting the same name twice: the second request is a 404 and changes nothing. */
  lemma SecondDeleteNotFound(models: seq<TagModelInfo>, loaded: seq<LoadedModelInfo>, fileMap: map<string, string>,
                             name: string)
    ensures var models', loaded' := WithoutModel(models, name), WithoutLoaded(loaded, name);
            && DeleteResponse(name, HasModel(models', name) || IsLoaded(loaded', name))
               == ErrorResponse(StatusNotFound, NotFoundMessage(name))
            && WithoutModel(models', name) == models'
            && WithoutLoaded(loaded', name) == loaded'
            && (fileMap - {CStr(name)}) - {CStr(name)} == fileMap - {CStr(name)}
  {
    DeleteRemovesExactlyTheName(models, loaded, name);
    DeleteIdempotent(models, loaded, name);
  }

  /** After a delete, a show for the same model is a 404, since its detail mapping is gone. */
  lemma ShowAfterDeleteNotFound(fileMap: map<string, string>, cache: map<string, Json>, doc: Json,
                                disk: string -> Show.DetailRead)
    requires RequestModel(doc).Some?
    ensures var name := RequestModel(doc).value;
            Show.ShowOutcome(fileMap - {CStr(name)}, cache, Parsed(doc), disk)
            == (ErrorResponse(StatusNotFound, NotFoundMessage(name)), cache)
  {
    Show.UnmappedModelNotFound(fileMap - {CStr(RequestModel(doc).value)}, cache, doc, disk);
  }

  /**
   * Deleting a name with a NUL in it, which no catalog or loaded entry
   * carries, answers 404 with the message cut at the NUL, yet erases the
   * detail mapping of the name before the NUL, so a later show of that
   * model is a 404 although the catalog still lists it.
   */
  lemma NulDeleteHidesPrefixModel(models: seq<TagModelInfo>, loaded: seq<LoadedModelInfo>,
                                  fileMap: map<string, string>, cache: map<string, Json>,
                                  name: string, suffix: string, disk: string -> Show.DetailRead)
    requires !HasNul(name)
    requires !HasModel(models, name + "\0" + suffix) && !IsLoaded(loaded, name + "\0" + suffix)
    ensures var full := name + "\0" + suffix;
            && DeleteResponse(full, HasModel(models, full) || IsLoaded(loaded, full)).status == StatusNotFound
            && Get(GenerateError(NotFoundMessage(full)), "error") == Some(JString("model '" + name))
            && fileMap - {CStr(full)} == fileMap - {name}
            && WithoutModel(models, full) == models
            && Show.ShowOutcome(fileMap - {CStr(full)}, cache, Parsed(JObject([("model", JString(name))])), disk).0.status
               == StatusNotFound
  {
    var full := name + "\0" + suffix;
    assert full[..|name|] == name;
    CStrStopsAtFirstNul(full, |name|);
    NotFoundMessageCut(name, suffix);
    DeleteIdempotent(models, loaded, full);
    var doc := JObject([("model", JString(name))]);
    GetField(doc, 0);
    CStrOfNulFree(name);
    Show.UnmappedModelNotFound(fileMap - {name}, cache, doc, disk);
  }

  /** After a delete, loading the same name is rejected and leaves the loaded list as it is. */
  lemma LoadAfterDeleteRejected(models: seq<TagModelInfo>, loaded: seq<LoadedModelInfo>, name: string,
                                keepAliveSeconds: int, now: Instant)
    ensures var models', loaded' := WithoutModel(models, name), WithoutLoaded(loaded, name);
            LoadOrUpdate(models', loaded', name, keepAliveSeconds, now) == (false, loaded')
  {
    DeleteRemovesExactlyTheName(models, loaded, name);
    LoadUnknownChangesNothing(WithoutModel(models, name), WithoutLoaded(loaded, name), name, keepAliveSeconds, now);
  }
}
