/**
 * JSON documents as the core sees them. An object is a sequence of
 * (key, value) pairs kept in insertion order; lookup and assignment act on
 * the first pair with a given key, which is how an insertion-ordered JSON
 * object (a vector of pairs searched front to back) behaves.
 */
module Json {
  import opened Wrappers

  datatype Json =
    | JNull
    | JBool(b: bool)
    | JInt(i: int)
    | JString(s: string)
    | JArray(items: seq<Json>)
    | JObject(fields: seq<(string, Json)>)

  /** Index of the first field named `key`. */
  function FindField(fields: seq<(string, Json)>, key: string): (r: Option<nat>)
    ensures r.Some? ==> r.value < |fields| && fields[r.value].0 == key
    ensures r.Some? ==> forall i :: 0 <= i < r.value ==> fields[i].0 != key
    ensures r.None? <==> forall i :: 0 <= i < |fields| ==> fields[i].0 != key
  {
    if |fields| == 0 then None
    else if fields[0].0 == key then Some(0)
    else match FindField(fields[1..], key)
      case None => None
      case Some(k) => Some(k + 1)
  }

  /** `contains(key)`: false for every value that is not an object. */
  predicate Contains(j: Json, key: string)
  {
    j.JObject? && FindField(j.fields, key).Some?
  }

  /** The value stored under `key`, if `j` is an object holding it. */
  function Get(j: Json, key: string): (r: Option<Json>)
    ensures r.Some? <==> Contains(j, key)
    ensures r.Some? ==> exists i :: 0 <= i < |j.fields| && j.fields[i] == (key, r.value)
  {
    if !j.JObject? then None
    else match FindField(j.fields, key)
      case None => None
      case Some(k) => Some(j.fields[k].1)
  }

  /** The keys occurring in a sequence of fields. */
  function KeysOf(fields: seq<(string, Json)>): set<string>
  {
    set i | 0 <= i < |fields| :: fields[i].0
  }

  lemma KeysOfCons(f: (string, Json), fields: seq<(string, Json)>)
    ensures KeysOf([f] + fields) == {f.0} + KeysOf(fields)
  {
    var all := [f] + fields;
    assert all[0].0 == f.0;
    forall x | x in KeysOf(all) ensures x in {f.0} + KeysOf(fields) {
      var i :| 0 <= i < |all| && all[i].0 == x;
      if i > 0 { assert fields[i - 1].0 == x; }
    }
    forall x | x in KeysOf(fields) ensures x in KeysOf(all) {
      var i :| 0 <= i < |fields| && fields[i].0 == x;
      assert all[i + 1].0 == x;
    }
  }

  /** The keys of a sequence of fields, in order. */
  function Names(fields: seq<(string, Json)>): (names: seq<string>)
    ensures |names| == |fields|
    ensures forall i :: 0 <= i < |fields| ==> names[i] == fields[i].0
  {
    seq(|fields|, i requires 0 <= i < |fields| => fields[i].0)
  }

  /** The set of keys of an object (empty for any other value). */
  function Keys(j: Json): (ks: set<string>)
    ensures forall k :: k in ks <==> Contains(j, k)
  {
    if j.JObject? then KeysOf(j.fields) else {}
  }

  /**
   * `obj[key] = v` on an object: the first field named `key` gets the new
   * value in place, or a new field is appended at the end.
   */
  function Assign(j: Json, key: string, v: Json): (r: Json)
    requires j.JObject?
    ensures r.JObject?
    ensures Get(r, key) == Some(v)
    ensures forall k :: k != key ==> Get(r, k) == Get(j, k)
    ensures Keys(r) == Keys(j) + {key}
    ensures Contains(j, key) ==> Names(r.fields) == Names(j.fields)
    ensures !Contains(j, key) ==> Names(r.fields) == Names(j.fields) + [key]
  {
    match FindField(j.fields, key)
    case Some(k) =>
      var r := JObject(j.fields[k := (key, v)]);
      AssignAtPreserves(j.fields, k, key, v);
      r
    case None =>
      var r := JObject(j.fields + [(key, v)]);
      AppendFieldPreserves(j.fields, key, v);
      assert Names(r.fields) == Names(j.fields) + [key];
      r
  }

  /** The key order `obj[key] = v` leaves: an existing key keeps its place, a new one goes last. */
  function NamesAfterAssign(names: seq<string>, key: string): (r: seq<string>)
    ensures names <= r && key in r
    ensures key in names ==> r == names
    ensures key !in names ==> r == names + [key]
  {
    if key in names then names else names + [key]
  }

  /** Assign keeps the order of the existing keys and appends a new key at the end. */
  lemma AssignNames(j: Json, key: string, v: Json)
    requires j.JObject?
    ensures Names(Assign(j, key, v).fields) == NamesAfterAssign(Names(j.fields), key)
  {
    ContainsNames(j, key);
  }

  /** Overwriting a key the object already has keeps its set of keys and their order. */
  lemma AssignExisting(j: Json, key: string, v: Json)
    requires j.JObject? && Contains(j, key)
    ensures Keys(Assign(j, key, v)) == Keys(j)
    ensures Names(Assign(j, key, v).fields) == Names(j.fields)
  {
  }

  /** A key occurs among the names of an object's fields exactly when the object contains it. */
  lemma ContainsNames(j: Json, key: string)
    requires j.JObject?
    ensures Contains(j, key) <==> key in Names(j.fields)
  {
    if key in Names(j.fields) {
      var i :| 0 <= i < |j.fields| && Names(j.fields)[i] == key;
      assert j.fields[i].0 == key;
    }
  }

  /** The contract of FindField determines its result. */
  lemma FindFieldIs(fields: seq<(string, Json)>, key: string, k: nat)
    requires k < |fields| && fields[k].0 == key
    requires forall i :: 0 <= i < k ==> fields[i].0 != key
    ensures FindField(fields, key) == Some(k)
  {
  }

  lemma AssignAtPreserves(fields: seq<(string, Json)>, k: nat, key: string, v: Json)
    requires FindField(fields, key) == Some(k)
    ensures FindField(fields[k := (key, v)], key) == Some(k)
    ensures forall other :: other != key ==> FindField(fields[k := (key, v)], other) == FindField(fields, other)
  {
    var fs := fields[k := (key, v)];
    FindFieldIs(fs, key, k);
    forall other | other != key
      ensures FindField(fs, other) == FindField(fields, other)
    {
      match FindField(fields, other)
      case Some(b) => FindFieldIs(fs, other, b);
      case None =>
    }
  }

  lemma AppendFieldPreserves(fields: seq<(string, Json)>, key: string, v: Json)
    requires FindField(fields, key).None?
    ensures FindField(fields + [(key, v)], key) == Some(|fields|)
    ensures forall other :: other != key ==> FindField(fields + [(key, v)], other) == FindField(fields, other)
  {
    var fs := fields + [(key, v)];
    FindFieldIs(fs, key, |fields|);
    forall other | other != key
      ensures FindField(fs, other) == FindField(fields, other)
    {
      match FindField(fields, other)
      case Some(b) => FindFieldIs(fs, other, b);
      case None =>
        assert forall i :: 0 <= i < |fs| ==> fs[i].0 != other by {
          forall i | 0 <= i < |fs| ensures fs[i].0 != other {
            if i < |fields| { assert fs[i] == fields[i]; }
          }
        }
    }
  }

  /** A field whose key does not occur earlier in the object is what Get finds. */
  lemma GetField(j: Json, i: nat)
    requires j.JObject? && i < |j.fields|
    requires forall k :: 0 <= k < i ==> j.fields[k].0 != j.fields[i].0
    ensures Get(j, j.fields[i].0) == Some(j.fields[i].1)
  {
    FindFieldIs(j.fields, j.fields[i].0, i);
  }
}
