/**
 * JSON-like values as the API response decodes them in Python: None, bool,
 * int, str, dict (an ordered list of key/value entries) and list.
 */
module JsonModel {
  import opened Wrappers

  datatype Json =
    | JNull
    | JBool(b: bool)
    | JNumber(n: int)
    | JString(s: string)
    | JObject(entries: seq<(string, Json)>)
    | JArray(items: seq<Json>)

  /** Python truthiness: None, False, 0, "", {} and [] are falsy. */
  predicate Truthy(v: Json)
  {
    match v
    case JNull => false
    case JBool(b) => b
    case JNumber(n) => n != 0
    case JString(s) => s != ""
    case JObject(entries) => entries != []
    case JArray(items) => items != []
  }

  /** `key in d` for a dict `d`. */
  predicate HasKey(entries: seq<(string, Json)>, key: string)
  {
    exists i :: 0 <= i < |entries| && entries[i].0 == key
  }

  /** A dict as Python holds it: no key occurs in two entries. */
  predicate DistinctKeys(entries: seq<(string, Json)>)
  {
    forall i, j :: 0 <= i < j < |entries| ==> entries[i].0 != entries[j].0
  }

  /** `d[key]` if `key in d`, else None: the value of the first entry with that key. */
  function Get(entries: seq<(string, Json)>, key: string): (r: Option<Json>)
    ensures r.Some? <==> HasKey(entries, key)
    ensures r.Some? ==> (key, r.value) in entries
  {
    if entries == [] then None
    else if entries[0].0 == key then Some(entries[0].1)
    else
      var r := Get(entries[1..], key);
      assert HasKey(entries, key) ==> HasKey(entries[1..], key) by {
        if HasKey(entries, key) {
          var i :| 0 <= i < |entries| && entries[i].0 == key;
          assert i != 0 && entries[1..][i - 1].0 == key;
        }
      }
      assert r.Some? ==> HasKey(entries, key) by {
        if r.Some? {
          var i :| 0 <= i < |entries[1..]| && entries[1..][i].0 == key;
          assert entries[i + 1].0 == key;
        }
      }
      r
  }

  /** In a dict with distinct keys the value found is the one stored under the key, wherever its entry is. */
  lemma {:induction false} GetDistinct(entries: seq<(string, Json)>, key: string, v: Json)
    requires DistinctKeys(entries) && (key, v) in entries
    ensures Get(entries, key) == Some(v)
  {
    if entries[0] != (key, v) {
      var k :| 0 <= k < |entries| && entries[k] == (key, v);
      assert k != 0 && entries[0].0 != key;
      assert entries[1..][k - 1] == (key, v);
      GetDistinct(entries[1..], key, v);
    }
  }
}
