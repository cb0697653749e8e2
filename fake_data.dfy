/** Canned response documents and the first-match catalog lookup. */
module FakeData {
  import opened Wrappers
  import opened Json
  import opened Config
  import opened CStrings

  /** `{"error": message}`, the message read as a C string (cut at its first NUL). */
  function GenerateError(message: string): (r: Json)
    ensures Keys(r) == {"error"}
    ensures Get(r, "error") == Some(JString(CStr(message)))
    ensures !HasNul(message) ==> Get(r, "error") == Some(JString(message))
  {
    CStrChangesOnlyNul(message);
    var r := JObject([("error", JString(CStr(message)))]);
    GetField(r, 0);
    assert KeysOf(r.fields) == {"error"};
    r
  }

  /** `{"status": "success"}` */
  function GenerateOkStatus(): (r: Json)
    ensures Keys(r) == {"status"}
    ensures Get(r, "status") == Some(JString("success"))
  {
    var r := JObject([("status", JString("success"))]);
    GetField(r, 0);
    assert KeysOf(r.fields) == {"status"};
    r
  }

  /**
   * The position of the first entry whose name is exactly `name`; the
   * source returns a pointer to that entry, or null.
   */
  function FindModelInfo(name: string, models: seq<TagModelInfo>): (r: Option<nat>)
    ensures r.Some? <==> exists i :: 0 <= i < |models| && models[i].name == name
    ensures r.Some? ==> r.value < |models| && models[r.value].name == name
    ensures r.Some? ==> forall i :: 0 <= i < r.value ==> models[i].name != name
  {
    if |models| == 0 then None
    else if models[0].name == name then Some(0)
    else match FindModelInfo(name, models[1..])
      case None => None
      case Some(k) => Some(k + 1)
  }
}
