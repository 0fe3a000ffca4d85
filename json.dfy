/**
 * Parsed JSON values as JavaScript sees them after `JSON.parse`, restricted
 * to integer numbers, together with the two JavaScript operations the core
 * applies to them: property access (`v.key`) and truthiness (`v || d`).
 */
module Json {
  import opened Wrappers

  datatype Json =
    | JNull
    | JBool(b: bool)
    | JNumber(n: int)
    | JString(s: string)
    | JArray(elems: seq<Json>)
    | JObject(members: seq<(string, Json)>)

  /** The outcome of `v.key`: `undefined`, a value, or a TypeError (on `null`). */
  datatype Lookup = Undefined | Defined(value: Json) | TypeError

  /** The value of the last member named `key`: `JSON.parse` keeps the last duplicate. */
  function LastMember(members: seq<(string, Json)>, key: string): (r: Option<Json>)
    ensures r.None? <==> forall k :: 0 <= k < |members| ==> members[k].0 != key
  {
    if members == [] then None
    else if members[|members| - 1].0 == key then Some(members[|members| - 1].1)
    else
      var init := members[..|members| - 1];
      assert forall k :: 0 <= k < |init| ==> init[k] == members[k];
      LastMember(init, key)
  }

  /** The value found is that of a member named `key` that no later member shares its name with. */
  lemma {:induction false} LastMemberIsLast(members: seq<(string, Json)>, key: string) returns (k: int)
    requires LastMember(members, key).Some?
    ensures 0 <= k < |members| && members[k] == (key, LastMember(members, key).value)
    ensures forall j :: k < j < |members| ==> members[j].0 != key
  {
    if members[|members| - 1].0 == key {
      k := |members| - 1;
    } else {
      var init := members[..|members| - 1];
      k := LastMemberIsLast(init, key);
      assert members[k] == init[k];
    }
  }

  /**
   * Property access. Only objects have own data properties here; on `null`
   * it throws, and on booleans, numbers, strings and arrays the core's keys
   * (`title`, `src`, `desc`, `details`, `ids`) are absent.
   */
  function Member(v: Json, key: string): (r: Lookup)
    ensures r.TypeError? <==> v.JNull?
    ensures r.Defined? ==> v.JObject? && LastMember(v.members, key) == Some(r.value)
    ensures v.JObject? ==> (r.Undefined? <==> forall k :: 0 <= k < |v.members| ==> v.members[k].0 != key)
  {
    match v
    case JNull => TypeError
    case JObject(ms) =>
      (match LastMember(ms, key)
       case None => Undefined
       case Some(x) => Defined(x))
    case _ => Undefined
  }

  /** JavaScript truthiness: `null`, `false`, `0` and `''` are falsy; arrays and objects are truthy. */
  predicate Truthy(v: Json) {
    match v
    case JNull => false
    case JBool(b) => b
    case JNumber(n) => n != 0
    case JString(s) => s != ""
    case JArray(_) => true
    case JObject(_) => true
  }
}
