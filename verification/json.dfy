/** Values produced by JavaScript's `JSON.parse`, and the property read that
    object destructuring performs on them. */
module Json {
  import opened Wrappers

  datatype Json =
    | JNull
    | JBool(b: bool)
    | JNumber(n: real)
    | JString(s: string)
    | JArray(items: seq<Json>)
    | JObject(members: seq<(string, Json)>)

  /** The value of `key` among `members`; when `JSON.parse` meets a key twice
      the later member wins. */
  function Lookup(members: seq<(string, Json)>, key: string): (r: Option<Json>)
    ensures r.None? <==> forall i :: 0 <= i < |members| ==> members[i].0 != key
    ensures r.Some? ==> (key, r.value) in members
    decreases |members|
  {
    if |members| == 0 then None
    else if members[|members| - 1].0 == key then Some(members[|members| - 1].1)
    else Lookup(members[..|members| - 1], key)
  }

  /** Of several members with the same key, the last one is the one read. */
  lemma {:induction false} LookupLaterWins(front: seq<(string, Json)>, key: string, v: Json, rest: seq<(string, Json)>)
    requires forall k :: 0 <= k < |rest| ==> rest[k].0 != key
    ensures Lookup(front + [(key, v)] + rest, key) == Some(v)
    decreases |rest|
  {
    var ms := front + [(key, v)] + rest;
    if |rest| > 0 {
      assert ms[..|ms| - 1] == front + [(key, v)] + rest[..|rest| - 1];
      LookupLaterWins(front, key, v, rest[..|rest| - 1]);
    }
  }

  /** `value.key` for a key that names no built-in property (such as "data",
      "lang_to" or "lang_from"): only an object's own members answer it; on a
      number, string, boolean or array it reads `undefined` (`None`). Reading a
      property of `null` throws instead, which callers handle first. */
  function Member(j: Json, key: string): (r: Option<Json>)
    ensures !j.JObject? ==> r.None?
    ensures j.JObject? ==> r == Lookup(j.members, key)
  {
    match j
    case JObject(ms) => Lookup(ms, key)
    case _ => None
  }

  /** Whether converting a parsed value to a string, as a template literal
      does, throws a `TypeError`. An object with its own `"toString"` member
      hides the callable one it inherits; that member is never callable, and
      the fallback `valueOf` returns the object itself, which is not a
      primitive. An array converts through `join`, so it throws exactly when
      one of its elements does. Every other value converts. */
  predicate ToStringThrows(j: Json)
  {
    match j
    case JObject(ms) => Lookup(ms, "toString").Some?
    case JArray(es) => exists i :: 0 <= i < |es| && ToStringThrows(es[i])
    case _ => false
  }

  /** A plain object that names `"toString"` anywhere among its members, even
      with a later duplicate, cannot be converted; one that does not name it
      converts to `"[object Object]"`. */
  lemma ObjectToStringThrows(ms: seq<(string, Json)>)
    ensures ToStringThrows(JObject(ms)) <==> exists i :: 0 <= i < |ms| && ms[i].0 == "toString"
  {
  }
}
