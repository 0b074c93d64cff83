/**
 * JSON values as the Python code sees them after `json.load`: objects are
 * dictionaries, kept as ordered key/value lists because Python dictionaries
 * remember insertion order.
 */
module JsonModel {
  import opened Wrappers
  import opened Text

  datatype Json =
    | JNull
    | JBool(b: bool)
    | JInt(i: int)
    | JStr(s: string)
    | JArr(items: seq<Json>)
    | JObj(fields: seq<(string, Json)>)

  /** A Python dictionary with string keys, in insertion order. */
  type Dict = seq<(string, Json)>

  /** Python's truth value of a JSON value (`bool(x)`). */
  predicate Truthy(j: Json) {
    match j
    case JNull => false
    case JBool(b) => b
    case JInt(i) => i != 0
    case JStr(s) => s != ""
    case JArr(items) => items != []
    case JObj(fields) => fields != []
  }

  /** The values `str(v)` prints without brackets: everything but lists and dictionaries. */
  predicate Scalar(v: Json) {
    !v.JArr? && !v.JObj?
  }

  /** `str(v)` for a scalar value. */
  function Display(v: Json): string
    requires Scalar(v)
  {
    match v
    case JNull => "None"
    case JBool(b) => if b then "True" else "False"
    case JInt(i) => Dec(i)
    case JStr(s) => s
  }

  function Keys(d: Dict): set<string> {
    set i | 0 <= i < |d| :: d[i].0
  }

  lemma KeysCons(d: Dict)
    requires d != []
    ensures Keys(d) == {d[0].0} + Keys(d[1..])
  {
    forall x | x in Keys(d) ensures x in {d[0].0} + Keys(d[1..]) {
      var i :| 0 <= i < |d| && d[i].0 == x;
      if i > 0 {
        assert d[1..][i - 1] == d[i];
      }
    }
    forall x | x in Keys(d[1..]) ensures x in Keys(d) {
      var i :| 0 <= i < |d| - 1 && d[1..][i].0 == x;
      assert d[i + 1] == d[1..][i];
    }
  }

  lemma KeysSnoc(d: Dict)
    requires d != []
    ensures Keys(d) == Keys(d[..|d| - 1]) + {d[|d| - 1].0}
  {
    var init := d[..|d| - 1];
    forall x | x in Keys(init) ensures x in Keys(d) {
      var i :| 0 <= i < |init| && init[i].0 == x;
      assert d[i] == init[i];
    }
    assert d[|d| - 1].0 in Keys(d);
  }

  /** Every key occurs once, as in a real dictionary. */
  predicate DistinctKeys(d: Dict) {
    forall i, j :: 0 <= i < j < |d| ==> d[i].0 != d[j].0
  }

  /** `d.get(k)`: `None` when the key is absent. */
  function Get(d: Dict, k: string): (r: Option<Json>)
    ensures r.Some? <==> k in Keys(d)
  {
    if d == [] then None
    else if d[0].0 == k then Some(d[0].1)
    else
      KeysCons(d);
      Get(d[1..], k)
  }

  /** `d.get(k, default)`. */
  function GetOr(d: Dict, k: string, default: Json): Json {
    Get(d, k).GetOr(default)
  }

  /** `d[k] = v`: an existing key keeps its place, a new key goes last. */
  function Put(d: Dict, k: string, v: Json): (r: Dict)
    ensures Keys(r) == Keys(d) + {k}
    ensures Get(r, k) == Some(v)
    ensures forall k' :: k' != k ==> Get(r, k') == Get(d, k')
    ensures k !in Keys(d) ==> r == d + [(k, v)]
  {
    if d == [] then
      assert Keys([(k, v)]) == {k} by {
        assert [(k, v)][0].0 == k;
      }
      [(k, v)]
    else
      KeysCons(d);
      if d[0].0 == k then
        var r := [(k, v)] + d[1..];
        assert r[1..] == d[1..];
        KeysCons(r);
        r
      else
        var t := Put(d[1..], k, v);
        var r := [d[0]] + t;
        assert r[1..] == t;
        KeysCons(r);
        r
  }

  /** `d.pop(k, None)`: the dictionary without key `k`. */
  function Remove(d: Dict, k: string): (r: Dict)
    ensures Keys(r) == Keys(d) - {k}
    ensures Get(r, k) == None
    ensures forall k' :: k' != k ==> Get(r, k') == Get(d, k')
  {
    if d == [] then []
    else
      KeysCons(d);
      var t := Remove(d[1..], k);
      if d[0].0 == k then t
      else
        var r := [d[0]] + t;
        assert r[1..] == t;
        KeysCons(r);
        r
  }

  /** The strings of a JSON array of strings. */
  predicate IsStringArray(j: Json) {
    j.JArr? && forall k :: 0 <= k < |j.items| ==> j.items[k].JStr?
  }

  function Strings(j: Json): (r: seq<string>)
    requires IsStringArray(j)
    ensures |r| == |j.items|
    ensures forall k :: 0 <= k < |r| ==> j.items[k] == JStr(r[k])
  {
    seq(|j.items|, k requires 0 <= k < |j.items| => j.items[k].s)
  }
}
