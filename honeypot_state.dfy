/**
 * The in-memory model-lifecycle state: the catalog of advertised models,
 * the models currently simulated as loaded (each with a keep-alive expiry),
 * the name -> detail-file map, and the path -> detail-document cache.
 *
 * The catalog, the loaded list and the map form one consistency domain and
 * the cache another; each method touches only the fields of its domain.
 * Each method is atomic (the locks that make it so are not modelled), and
 * the clock is the explicit parameter `now`.
 */
module State {
  import opened Wrappers
  import opened Json
  import opened Config
  import opened Seqs
  import opened FakeData
  import opened CStrings

  /** A steady-clock instant, in nanoseconds. */
  type Instant = int

  const NanosPerSecond: int := 1_000_000_000

  /** `now + keep_alive` for a keep-alive given in seconds. */
  function ExpiryAfter(now: Instant, keepAliveSeconds: int): Instant
  {
    now + keepAliveSeconds * NanosPerSecond
  }

  /** A value copy of a catalog entry, its expiry instant, and its VRAM size gauge. */
  datatype LoadedModelInfo = LoadedModelInfo(baseInfo: TagModelInfo, expiresAt: Instant, sizeVram: U64)

  // ---------------------------------------------------------------------------
  // The registry as values

  predicate HasModel(models: seq<TagModelInfo>, name: string)
  {
    exists i :: 0 <= i < |models| && models[i].name == name
  }

  predicate IsLoaded(loaded: seq<LoadedModelInfo>, name: string)
  {
    exists i :: 0 <= i < |loaded| && loaded[i].baseInfo.name == name
  }

  function BaseInfos(loaded: seq<LoadedModelInfo>): (infos: seq<TagModelInfo>)
    ensures |infos| == |loaded|
    ensures forall i :: 0 <= i < |loaded| ==> infos[i] == loaded[i].baseInfo
  {
    seq(|loaded|, i requires 0 <= i < |loaded| => loaded[i].baseInfo)
  }

  /** Position of the first loaded entry named `name`. */
  function FindLoaded(loaded: seq<LoadedModelInfo>, name: string): (r: Option<nat>)
    ensures r.Some? <==> IsLoaded(loaded, name)
    ensures r.Some? ==> r.value < |loaded| && loaded[r.value].baseInfo.name == name
    ensures r.Some? ==> forall i :: 0 <= i < r.value ==> loaded[i].baseInfo.name != name
  {
    FindModelInfo(name, BaseInfos(loaded))
  }

  /** The first catalog entry named `name`, if any. */
  function CatalogEntry(models: seq<TagModelInfo>, name: string): (r: Option<TagModelInfo>)
    ensures r.Some? <==> HasModel(models, name)
    ensures r.Some? ==> r.value.name == name
    ensures r.Some? ==> exists k :: 0 <= k < |models| && models[k] == r.value
                                     && forall i :: 0 <= i < k ==> models[i].name != name
  {
    match FindModelInfo(name, models)
    case None => None
    case Some(k) => Some(models[k])
  }

  /** Lazy expiry: the loaded entries whose expiry is strictly after `now`, in storage order. */
  function Unexpired(loaded: seq<LoadedModelInfo>, now: Instant): seq<LoadedModelInfo>
  {
    Filter(loaded, (l: LoadedModelInfo) => l.expiresAt > now)
  }

  /** Listing one more entry keeps it exactly when it has not expired. */
  lemma UnexpiredAppend(loaded: seq<LoadedModelInfo>, l: LoadedModelInfo, now: Instant)
    ensures Unexpired(loaded + [l], now) == Unexpired(loaded, now) + (if l.expiresAt > now then [l] else [])
  {
    FilterAppend(loaded, [l], (l: LoadedModelInfo) => l.expiresAt > now);
    FilterSingleton(l, (l: LoadedModelInfo) => l.expiresAt > now);
  }

  /** The catalog without any entry named `name`, survivors in order. */
  function WithoutModel(models: seq<TagModelInfo>, name: string): seq<TagModelInfo>
  {
    Filter(models, (m: TagModelInfo) => m.name != name)
  }

  /** The loaded list without any entry named `name`, survivors in order. */
  function WithoutLoaded(loaded: seq<LoadedModelInfo>, name: string): seq<LoadedModelInfo>
  {
    Filter(loaded, (l: LoadedModelInfo) => l.baseInfo.name != name)
  }

  /**
   * load-or-refresh as a value: unknown names fail and change nothing; an
   * already-loaded name has only its first entry's expiry refreshed; any
   * other catalog name gets one new entry copied from its first catalog
   * entry, with size_vram equal to that entry's size.
   */
  function LoadOrUpdate(models: seq<TagModelInfo>, loaded: seq<LoadedModelInfo>, name: string,
                        keepAliveSeconds: int, now: Instant): (bool, seq<LoadedModelInfo>)
  {
    match FindModelInfo(name, models)
    case None => (false, loaded)
    case Some(a) =>
      var expiresAt := ExpiryAfter(now, keepAliveSeconds);
      match FindLoaded(loaded, name)
      case Some(i) => (true, loaded[i := loaded[i].(expiresAt := expiresAt)])
      case None => (true, loaded + [LoadedModelInfo(models[a], expiresAt, models[a].size)])
  }

  ghost predicate UniqueLoadedNames(loaded: seq<LoadedModelInfo>)
  {
    forall i, j :: 0 <= i < j < |loaded| ==> loaded[i].baseInfo.name != loaded[j].baseInfo.name
  }

  /** `l` copies the first catalog entry of its name, and its size_vram is that entry's size. */
  ghost predicate IsCatalogCopy(models: seq<TagModelInfo>, l: LoadedModelInfo)
  {
    CatalogEntry(models, l.baseInfo.name) == Some(l.baseInfo) && l.sizeVram == l.baseInfo.size
  }

  /** What every operation keeps: at most one loaded entry per name, each a copy of its catalog entry. */
  ghost predicate RegistryInvariant(models: seq<TagModelInfo>, loaded: seq<LoadedModelInfo>)
  {
    && UniqueLoadedNames(loaded)
    && forall i :: 0 <= i < |loaded| ==> IsCatalogCopy(models, loaded[i])
  }

  // ---------------------------------------------------------------------------
  // Lemmas about deletion

  lemma CatalogEntryUnfold(models: seq<TagModelInfo>, name: string)
    requires |models| > 0
    ensures CatalogEntry(models, name)
            == if models[0].name == name then Some(models[0]) else CatalogEntry(models[1..], name)
  {
    if models[0].name != name {
      match FindModelInfo(name, models[1..])
      case None =>
      case Some(k) => assert models[1..][k] == models[k + 1];
    }
  }

  /** Removing one name does not change which entry another name finds first. */
  lemma {:induction false} CatalogEntryAfterRemoval(models: seq<TagModelInfo>, removed: string, name: string)
    requires name != removed
    ensures CatalogEntry(WithoutModel(models, removed), name) == CatalogEntry(models, name)
  {
    if |models| > 0 {
      var w := WithoutModel(models, removed);
      var rest := WithoutModel(models[1..], removed);
      CatalogEntryUnfold(models, name);
      if models[0].name == removed {
        assert w == rest;
        CatalogEntryAfterRemoval(models[1..], removed, name);
      } else {
        assert w == [models[0]] + rest;
        assert w[0] == models[0] && w[1..] == rest;
        CatalogEntryUnfold(w, name);
        if models[0].name != name {
          CatalogEntryAfterRemoval(models[1..], removed, name);
        }
      }
    }
  }

  /** Deletion removes every entry with the name and keeps every other entry. */
  lemma DeleteRemovesExactlyTheName(models: seq<TagModelInfo>, loaded: seq<LoadedModelInfo>, name: string)
    ensures !HasModel(WithoutModel(models, name), name)
    ensures !IsLoaded(WithoutLoaded(loaded, name), name)
    ensures forall i :: 0 <= i < |models| && models[i].name != name ==> models[i] in WithoutModel(models, name)
    ensures forall i :: 0 <= i < |loaded| && loaded[i].baseInfo.name != name ==> loaded[i] in WithoutLoaded(loaded, name)
  {
    var w := WithoutModel(models, name);
    assert forall i :: 0 <= i < |w| ==> w[i].name != name;
    var l := WithoutLoaded(loaded, name);
    assert forall i :: 0 <= i < |l| ==> l[i].baseInfo.name != name;
  }

  /** Deleting a name that nothing holds changes nothing, so a repeated delete finds nothing. */
  lemma DeleteIdempotent(models: seq<TagModelInfo>, loaded: seq<LoadedModelInfo>, name: string)
    ensures WithoutModel(WithoutModel(models, name), name) == WithoutModel(models, name)
    ensures WithoutLoaded(WithoutLoaded(loaded, name), name) == WithoutLoaded(loaded, name)
    ensures !HasModel(models, name) ==> WithoutModel(models, name) == models
    ensures !IsLoaded(loaded, name) ==> WithoutLoaded(loaded, name) == loaded
  {
    FilterIdempotent(models, (m: TagModelInfo) => m.name != name);
    FilterIdempotent(loaded, (l: LoadedModelInfo) => l.baseInfo.name != name);
    if !HasModel(models, name) {
      FilterKeepsAll(models, (m: TagModelInfo) => m.name != name);
    }
    if !IsLoaded(loaded, name) {
      FilterKeepsAll(loaded, (l: LoadedModelInfo) => l.baseInfo.name != name);
    }
  }

  /** The delete result: something was removed exactly when the catalog or the loaded list held the name. */
  lemma DeleteReportsRemoval(models: seq<TagModelInfo>, loaded: seq<LoadedModelInfo>, name: string)
    ensures |WithoutModel(models, name)| != |models| <==> HasModel(models, name)
    ensures |WithoutLoaded(loaded, name)| != |loaded| <==> IsLoaded(loaded, name)
  {
    FilterLength(models, (m: TagModelInfo) => m.name != name);
    FilterLength(loaded, (l: LoadedModelInfo) => l.baseInfo.name != name);
  }

  lemma {:induction false} UniqueAfterFilter(loaded: seq<LoadedModelInfo>, keep: LoadedModelInfo -> bool)
    requires UniqueLoadedNames(loaded)
    ensures UniqueLoadedNames(Filter(loaded, keep))
  {
    if |loaded| > 0 {
      var tail := loaded[1..];
      assert UniqueLoadedNames(tail) by {
        forall i, j | 0 <= i < j < |tail| ensures tail[i].baseInfo.name != tail[j].baseInfo.name {
          assert tail[i] == loaded[i + 1] && tail[j] == loaded[j + 1];
        }
      }
      UniqueAfterFilter(tail, keep);
      var ft := Filter(tail, keep);
      if keep(loaded[0]) {
        var f := [loaded[0]] + ft;
        assert Filter(loaded, keep) == f;
        forall i, j | 0 <= i < j < |f| ensures f[i].baseInfo.name != f[j].baseInfo.name {
          if i == 0 {
            assert f[j] == ft[j - 1] && ft[j - 1] in tail;
            var k :| 0 <= k < |tail| && tail[k] == ft[j - 1];
            assert tail[k] == loaded[k + 1];
          } else {
            assert f[i] == ft[i - 1] && f[j] == ft[j - 1];
          }
        }
      }
    }
  }

  /** Deletion keeps the registry invariant. */
  lemma DeletePreservesInvariant(models: seq<TagModelInfo>, loaded: seq<LoadedModelInfo>, name: string)
    requires RegistryInvariant(models, loaded)
    ensures RegistryInvariant(WithoutModel(models, name), WithoutLoaded(loaded, name))
  {
    var models', loaded' := WithoutModel(models, name), WithoutLoaded(loaded, name);
    UniqueAfterFilter(loaded, (l: LoadedModelInfo) => l.baseInfo.name != name);
    forall i | 0 <= i < |loaded'| ensures IsCatalogCopy(models', loaded'[i]) {
      var l := loaded'[i];
      var k :| 0 <= k < |loaded| && loaded[k] == l;
      CatalogEntryAfterRemoval(models, name, l.baseInfo.name);
    }
  }

  // ---------------------------------------------------------------------------
  // Lemmas about load-or-refresh

  /** A name absent from the catalog is rejected and nothing changes. */
  lemma LoadUnknownChangesNothing(models: seq<TagModelInfo>, loaded: seq<LoadedModelInfo>, name: string,
                                  keepAliveSeconds: int, now: Instant)
    requires !HasModel(models, name)
    ensures LoadOrUpdate(models, loaded, name, keepAliveSeconds, now) == (false, loaded)
  {
  }

  /** A loaded name keeps its place, copy and size; only its expiry becomes now + keep-alive. */
  lemma LoadRefreshesOnlyExpiry(models: seq<TagModelInfo>, loaded: seq<LoadedModelInfo>, name: string,
                                keepAliveSeconds: int, now: Instant)
    requires HasModel(models, name) && IsLoaded(loaded, name)
    ensures var (ok, loaded') := LoadOrUpdate(models, loaded, name, keepAliveSeconds, now);
            && ok
            && |loaded'| == |loaded|
            && BaseInfos(loaded') == BaseInfos(loaded)
            && (forall i :: 0 <= i < |loaded| ==> loaded'[i].sizeVram == loaded[i].sizeVram)
            && (forall i :: 0 <= i < |loaded| && i != FindLoaded(loaded, name).value ==> loaded'[i] == loaded[i])
            && loaded'[FindLoaded(loaded, name).value].expiresAt == ExpiryAfter(now, keepAliveSeconds)
  {
    var loaded' := LoadOrUpdate(models, loaded, name, keepAliveSeconds, now).1;
    assert BaseInfos(loaded') == BaseInfos(loaded);
  }

  /** A catalog name that is not loaded gets exactly one new entry at the end, copied from its first catalog entry. */
  lemma LoadAppendsOneEntry(models: seq<TagModelInfo>, loaded: seq<LoadedModelInfo>, name: string,
                            keepAliveSeconds: int, now: Instant)
    requires HasModel(models, name) && !IsLoaded(loaded, name)
    ensures var (ok, loaded') := LoadOrUpdate(models, loaded, name, keepAliveSeconds, now);
            var entry := CatalogEntry(models, name).value;
            && ok
            && loaded' == loaded + [LoadedModelInfo(entry, ExpiryAfter(now, keepAliveSeconds), entry.size)]
  {
  }

  /** Load-or-refresh keeps the registry invariant: in particular never two loaded entries with one name. */
  lemma LoadPreservesInvariant(models: seq<TagModelInfo>, loaded: seq<LoadedModelInfo>, name: string,
                               keepAliveSeconds: int, now: Instant)
    requires RegistryInvariant(models, loaded)
    ensures RegistryInvariant(models, LoadOrUpdate(models, loaded, name, keepAliveSeconds, now).1)
  {
    var loaded' := LoadOrUpdate(models, loaded, name, keepAliveSeconds, now).1;
    if HasModel(models, name) {
      match FindLoaded(loaded, name)
      case Some(i) =>
        assert forall j :: 0 <= j < |loaded| ==> loaded'[j].baseInfo == loaded[j].baseInfo && loaded'[j].sizeVram == loaded[j].sizeVram;
      case None =>
        assert forall j :: 0 <= j < |loaded| ==> loaded[j].baseInfo.name != name;
    }
  }

  /** Two loads of a model that was not loaded leave exactly one entry for it, expiring at the second call's instant plus the keep-alive. */
  lemma RepeatedLoadKeepsOneEntry(models: seq<TagModelInfo>, loaded: seq<LoadedModelInfo>, name: string,
                                  keepAliveSeconds: int, first: Instant, second: Instant)
    requires HasModel(models, name) && !IsLoaded(loaded, name)
    ensures var (ok1, loaded1) := LoadOrUpdate(models, loaded, name, keepAliveSeconds, first);
            var (ok2, loaded2) := LoadOrUpdate(models, loaded1, name, keepAliveSeconds, second);
            && ok1 && ok2
            && |loaded2| == |loaded| + 1
            && loaded2[..|loaded|] == loaded
            && loaded2[|loaded|].baseInfo.name == name
            && loaded2[|loaded|].expiresAt == ExpiryAfter(second, keepAliveSeconds)
            && forall i :: 0 <= i < |loaded2| && loaded2[i].baseInfo.name == name ==> i == |loaded|
  {
    var loaded1 := LoadOrUpdate(models, loaded, name, keepAliveSeconds, first).1;
    assert forall i :: 0 <= i < |loaded| ==> loaded1[i] == loaded[i];
    assert FindLoaded(loaded1, name) == Some(|loaded|) by {
      FindFieldFree(loaded1, name, |loaded|);
    }
  }

  lemma FindFieldFree(loaded: seq<LoadedModelInfo>, name: string, k: nat)
    requires k < |loaded| && loaded[k].baseInfo.name == name
    requires forall i :: 0 <= i < k ==> loaded[i].baseInfo.name != name
    ensures FindLoaded(loaded, name) == Some(k)
  {
    var infos := BaseInfos(loaded);
    assert infos[k].name == name;
  }

  /** After a load, the model is listed exactly while the listing instant is before its new expiry. */
  lemma LoadedVisibleUntilExpiry(models: seq<TagModelInfo>, loaded: seq<LoadedModelInfo>, name: string,
                                 keepAliveSeconds: int, now: Instant, at: Instant)
    requires RegistryInvariant(models, loaded) && HasModel(models, name)
    ensures IsLoaded(Unexpired(LoadOrUpdate(models, loaded, name, keepAliveSeconds, now).1, at), name)
            <==> at < ExpiryAfter(now, keepAliveSeconds)
  {
    var loaded' := LoadOrUpdate(models, loaded, name, keepAliveSeconds, now).1;
    LoadPreservesInvariant(models, loaded, name, keepAliveSeconds, now);
    var k: nat := match FindLoaded(loaded, name) case Some(i) => i case None => |loaded|;
    assert k < |loaded'| && loaded'[k].baseInfo.name == name && loaded'[k].expiresAt == ExpiryAfter(now, keepAliveSeconds);
    var visible := Unexpired(loaded', at);
    if at < ExpiryAfter(now, keepAliveSeconds) {
      assert loaded'[k] in visible;
      var v :| 0 <= v < |visible| && visible[v] == loaded'[k];
    }
  }

  // ---------------------------------------------------------------------------
  // The state object

  class HoneypotState {
    var availableModels: seq<TagModelInfo>
    var loadedModels: seq<LoadedModelInfo>
    var showFileMap: map<string, string>
    var showCache: map<string, Json>

    ghost predicate Valid()
      reads this
    {
      RegistryInvariant(availableModels, loadedModels)
    }

    /** Copies the catalog and the detail map from the configuration; nothing is loaded or cached. */
    constructor (config: HoneypotConfig)
      ensures Valid()
      ensures availableModels == config.apiBehavior.tagModels
      ensures showFileMap == config.apiBehavior.showFileMap
      ensures loadedModels == [] && showCache == map[]
    {
      availableModels := config.apiBehavior.tagModels;
      loadedModels := [];
      showFileMap := config.apiBehavior.showFileMap;
      showCache := map[];
    }

    /** A snapshot of the whole catalog. */
    method GetAvailableModels() returns (models: seq<TagModelInfo>)
      ensures models == availableModels
    {
      models := availableModels;
    }

    /** The copy-through-a-filter loop of the lazy-expiry listing; storage keeps the expired entries. */
    method GetLoadedModels(now: Instant) returns (listed: seq<LoadedModelInfo>)
      ensures listed == Unexpired(loadedModels, now)
      ensures forall i :: 0 <= i < |listed| ==> listed[i].expiresAt > now && listed[i] in loadedModels
      ensures forall i :: 0 <= i < |loadedModels| && loadedModels[i].expiresAt > now ==> loadedModels[i] in listed
    {
      listed := [];
      var i := 0;
      while i < |loadedModels|
        invariant 0 <= i <= |loadedModels|
        invariant listed == Unexpired(loadedModels[..i], now)
      {
        assert loadedModels[..i + 1] == loadedModels[..i] + [loadedModels[i]];
        UnexpiredAppend(loadedModels[..i], loadedModels[i], now);
        if loadedModels[i].expiresAt > now {
          listed := listed + [loadedModels[i]];
        }
        i := i + 1;
      }
      assert loadedModels[..i] == loadedModels;
    }

    /**
     * Exact-match lookup of a model's detail file; absence is a normal
     * result. The map is searched with the name read as a C string.
     */
    method GetDetailFilePath(name: string) returns (path: Option<string>)
      ensures path.Some? <==> CStr(name) in showFileMap
      ensures path.Some? ==> path.value == showFileMap[CStr(name)]
    {
      var key := CStr(name);
      if key in showFileMap {
        path := Some(showFileMap[key]);
      } else {
        path := None;
      }
    }

    /** The cached document for a file path (read as a C string), if one was stored. */
    method GetCachedDetail(path: string) returns (detail: Option<Json>)
      ensures detail.Some? <==> CStr(path) in showCache
      ensures detail.Some? ==> detail.value == showCache[CStr(path)]
    {
      var key := CStr(path);
      if key in showCache {
        detail := Some(showCache[key]);
      } else {
        detail := None;
      }
    }

    /** Stores or overwrites the document for a path (read as a C string); the registry fields are untouched. */
    method CacheDetail(path: string, detail: Json)
      modifies this`showCache
      ensures showCache == old(showCache)[CStr(path) := detail]
    {
      showCache := showCache[CStr(path) := detail];
    }

    /**
     * Removes every catalog and loaded entry named `name` and the detail
     * mapping of the name read as a C string. The result reports only the
     * catalog and the loaded list.
     */
    method DeleteModel(name: string) returns (deleted: bool)
      requires Valid()
      modifies this`availableModels, this`loadedModels, this`showFileMap
      ensures Valid()
      ensures availableModels == WithoutModel(old(availableModels), name)
      ensures loadedModels == WithoutLoaded(old(loadedModels), name)
      ensures showFileMap == old(showFileMap) - {CStr(name)}
      ensures deleted <==> HasModel(old(availableModels), name) || IsLoaded(old(loadedModels), name)
      ensures !HasModel(availableModels, name) && !IsLoaded(loadedModels, name) && CStr(name) !in showFileMap
    {
      DeleteReportsRemoval(availableModels, loadedModels, name);
      DeletePreservesInvariant(availableModels, loadedModels, name);
      DeleteRemovesExactlyTheName(availableModels, loadedModels, name);
      var keptModels := WithoutModel(availableModels, name);
      var deletedFromAvailable := |keptModels| != |availableModels|;
      availableModels := keptModels;
      var keptLoaded := WithoutLoaded(loadedModels, name);
      var deletedFromLoaded := |keptLoaded| != |loadedModels|;
      loadedModels := keptLoaded;
      showFileMap := showFileMap - {CStr(name)};
      deleted := deletedFromAvailable || deletedFromLoaded;
    }

    /** Loads a catalog model, or refreshes the expiry of an already-loaded one. */
    method LoadOrUpdateModel(name: string, keepAliveSeconds: int, now: Instant) returns (ok: bool)
      requires Valid()
      modifies this`loadedModels
      ensures Valid()
      ensures (ok, loadedModels) == LoadOrUpdate(availableModels, old(loadedModels), name, keepAliveSeconds, now)
      ensures ok <==> HasModel(availableModels, name)
    {
      LoadPreservesInvariant(availableModels, loadedModels, name, keepAliveSeconds, now);
      var available := FindModelInfo(name, availableModels);
      if available.None? {
        return false;
      }
      var expiresAt := ExpiryAfter(now, keepAliveSeconds);
      var loaded := FindLoaded(loadedModels, name);
      if loaded.Some? {
        var i := loaded.value;
        loadedModels := loadedModels[i := loadedModels[i].(expiresAt := expiresAt)];
      } else {
        var baseInfo := availableModels[available.value];
        loadedModels := loadedModels + [LoadedModelInfo(baseInfo, expiresAt, baseInfo.size)];
      }
      return true;
    }
  }
}
