/** Parsed JSON values and the conditional casts (`as?`) that the checker
    applies to them.

    A JSON object keeps its members in the order in which the Swift
    dictionary that `JSONSerialization` builds from it is iterated; that
    order is unspecified in Swift, so here it is part of the input. */
module Json {
  import opened Wrappers

  datatype JValue =
    | JObject(members: seq<(string, JValue)>)
    | JString(text: string)
      /** numbers, booleans, arrays and null: the checker never looks inside them */
    | JOther

  /** A Swift `[String: Any]`. */
  type Dict = seq<(string, JValue)>

  /** No key occurs twice, as in a dictionary. */
  ghost predicate DistinctKeys<V>(entries: seq<(string, V)>) {
    forall i, j :: 0 <= i < j < |entries| ==> entries[i].0 != entries[j].0
  }

  /** The subscript `entries[key]`. */
  function Get<V>(entries: seq<(string, V)>, key: string): (r: Option<V>)
    ensures r.None? <==> forall i :: 0 <= i < |entries| ==> entries[i].0 != key
    ensures r.Some? ==> exists i :: 0 <= i < |entries| && entries[i] == (key, r.value)
  {
    if entries == [] then None
    else if entries[0].0 == key then Some(entries[0].1)
    else
      var r := Get(entries[1..], key);
      assert r.Some? ==> exists i :: 0 <= i < |entries[1..]| && entries[1..][i] == (key, r.value);
      r
  }

  /** In a dictionary the subscript finds the one entry with that key. */
  lemma {:induction false} GetDistinct<V>(entries: seq<(string, V)>, i: nat)
    requires DistinctKeys(entries) && i < |entries|
    ensures Get(entries, entries[i].0) == Some(entries[i].1)
  {
    if i > 0 {
      assert entries[0].0 != entries[i].0;
      assert entries[1..][i - 1] == entries[i];
      GetDistinct(entries[1..], i - 1);
    }
  }

  /** `v as? [String: Any]` */
  function AsDict(v: Option<JValue>): Option<Dict> {
    if v.Some? && v.value.JObject? then Some(v.value.members) else None
  }

  /** `v as? String` */
  function AsString(v: Option<JValue>): Option<string> {
    if v.Some? && v.value.JString? then Some(v.value.text) else None
  }

  /** The members of an object cast to `[String: [String: Any]]`: the cast
      succeeds only when every member is an object, and then keeps every key
      and its order. */
  function Dicts(d: Dict): (r: Option<seq<(string, Dict)>>)
    ensures r.Some? <==> forall i :: 0 <= i < |d| ==> d[i].1.JObject?
    ensures r.Some? ==> |r.value| == |d|
    ensures r.Some? ==> forall i :: 0 <= i < |d| ==> r.value[i] == (d[i].0, d[i].1.members)
  {
    if d == [] then Some([])
    else if !d[0].1.JObject? then None
    else
      match Dicts(d[1..])
      case None =>
        assert !forall i :: 0 <= i < |d[1..]| ==> d[1..][i].1.JObject?;
        None
      case Some(rest) => Some([(d[0].0, d[0].1.members)] + rest)
  }

  /** `v as? [String: [String: Any]]` */
  function AsDictOfDicts(v: Option<JValue>): Option<seq<(string, Dict)>> {
    if v.Some? && v.value.JObject? then Dicts(v.value.members) else None
  }

  /** The members of an object cast to `[String: [String: [String: Any]]]`:
      the cast succeeds only when every member is an object whose every
      member is an object. */
  function DictsOfDicts(d: Dict): (r: Option<seq<(string, seq<(string, Dict)>)>>)
    ensures r.Some? <==> forall i :: 0 <= i < |d| ==> d[i].1.JObject? && Dicts(d[i].1.members).Some?
    ensures r.Some? ==> |r.value| == |d|
    ensures r.Some? ==> forall i :: 0 <= i < |d| ==> r.value[i] == (d[i].0, Dicts(d[i].1.members).value)
  {
    if d == [] then Some([])
    else if !d[0].1.JObject? then None
    else
      match Dicts(d[0].1.members)
      case None => None
      case Some(first) =>
        match DictsOfDicts(d[1..])
        case None =>
          assert !forall i :: 0 <= i < |d[1..]| ==> d[1..][i].1.JObject? && Dicts(d[1..][i].1.members).Some?;
          None
        case Some(rest) => Some([(d[0].0, first)] + rest)
  }

  /** `v as? [String: [String: [String: Any]]]` */
  function AsDictOfDictsOfDicts(v: Option<JValue>): Option<seq<(string, seq<(string, Dict)>)>> {
    if v.Some? && v.value.JObject? then DictsOfDicts(v.value.members) else None
  }
}
