/** The JSON values the scripts build with dicts and lists and read back with `json.load`. */
module JsonValues {
  import opened Wrappers

  /** An object keeps its members in insertion order, as a Python dict does. */
  datatype Json =
    | JNull
    | JNumber(n: real)
    | JString(s: string)
    | JArray(items: seq<Json>)
    | JObject(members: seq<(string, Json)>)

  /** `d[key]` on the dict the members describe: the last member with that key wins. */
  function Get(members: seq<(string, Json)>, key: string): (r: Option<Json>)
    ensures r.None? <==> forall i :: 0 <= i < |members| ==> members[i].0 != key
    ensures r.Some? ==> exists i :: 0 <= i < |members| && members[i] == (key, r.value)
                                     && forall j :: i < j < |members| ==> members[j].0 != key
    decreases |members|
  {
    if |members| == 0 then None
    else
      var last := members[|members| - 1];
      var front := members[..|members| - 1];
      assert forall i :: 0 <= i < |front| ==> front[i] == members[i];
      if last.0 == key then Some(last.1) else Get(front, key)
  }

  /** A key held by exactly one member looks up that member's value. */
  lemma GetUnique(members: seq<(string, Json)>, i: nat, key: string)
    requires i < |members| && members[i].0 == key
    requires forall j :: 0 <= j < |members| && j != i ==> members[j].0 != key
    ensures Get(members, key) == Some(members[i].1)
  {
  }
}
