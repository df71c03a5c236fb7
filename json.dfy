/** JSON-like values as Python's `json` module produces and consumes them.
    An object is an insertion-ordered list of (key, value) pairs, the way a
    Python `dict` keeps its keys. Floating-point numbers are not modelled. */
module JsonValue {
  import opened Wrappers

  datatype Json =
    | JNull
    | JBool(b: bool)
    | JInt(i: int)
    | JStr(s: string)
    | JArr(items: seq<Json>)
    | JObj(fields: seq<(string, Json)>)

  /** The keys of a list of key-value pairs, in order: an object's field list or a sanitised package map. */
  function Keys<T>(fields: seq<(string, T)>): (ks: seq<string>)
    ensures |ks| == |fields|
    ensures forall i :: 0 <= i < |fields| ==> ks[i] == fields[i].0
  {
    if fields == [] then [] else [fields[0].0] + Keys(fields[1..])
  }

  /** No key occurs twice, as in every Python dict. */
  predicate UniqueKeys(fields: seq<(string, Json)>) {
    forall i, j :: 0 <= i < j < |fields| ==> fields[i].0 != fields[j].0
  }

  /** `d.get(key)`: the value stored under `key`, if any. */
  function Get(fields: seq<(string, Json)>, key: string): Option<Json> {
    if fields == [] then None
    else if fields[0].0 == key then Some(fields[0].1)
    else Get(fields[1..], key)
  }

  /** `d.get(key)` finds a value exactly when `key` is one of the keys, and
      the value it finds is stored under `key`. */
  lemma {:induction false} GetFinds(fields: seq<(string, Json)>, key: string)
    ensures Get(fields, key).Some? <==> key in Keys(fields)
    ensures Get(fields, key).Some? ==> (key, Get(fields, key).value) in fields
  {
    if fields != [] {
      GetFinds(fields[1..], key);
      assert Keys(fields) == [fields[0].0] + Keys(fields[1..]);
    }
  }

  /** The value `d.get(key)` finds is the one at the first position holding
      `key`. */
  lemma {:induction false} GetAt(fields: seq<(string, Json)>, i: nat, key: string)
    requires i < |fields| && fields[i].0 == key
    requires forall j :: 0 <= j < i ==> fields[j].0 != key
    ensures Get(fields, key) == Some(fields[i].1)
  {
    if i > 0 {
      GetAt(fields[1..], i - 1, key);
    }
  }

  /** Python truthiness of a JSON value: what `x or default` falls back on. */
  predicate Falsy(j: Json) {
    match j
    case JNull => true
    case JBool(b) => !b
    case JInt(i) => i == 0
    case JStr(s) => s == ""
    case JArr(items) => items == []
    case JObj(fields) => fields == []
  }
}
