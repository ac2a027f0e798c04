/** Parsed JSON values as the Go code sees them after `encoding/json` has
    decoded a body into `interface{}`.  An object is the sequence of its
    members in the order a `for k, v := range` loop visits them. */
module Json {

  datatype Option<+T> = None | Some(value: T)

  datatype Json =
    | JNull
    | JBool(b: bool)
    | JNumber(n: int)
    | JString(s: string)
    | JArray(elems: seq<Json>)
    | JObject(members: seq<(string, Json)>)

  type Members = seq<(string, Json)>

  /** The outcome of handing a text to the JSON decoder. */
  datatype Parsed = Parsed(value: Json) | Unparseable(message: string)

  /** The value stored under `key`: the Go expression `m[key]` with its
      comma-ok flag folded into the Option. */
  function Lookup(ms: Members, key: string): (r: Option<Json>)
    ensures r.Some? <==> exists k :: 0 <= k < |ms| && ms[k].0 == key
    ensures r.Some? ==> (key, r.value) in ms
  {
    if ms == [] then None
    else if ms[0].0 == key then Some(ms[0].1)
    else Lookup(ms[1..], key)
  }

  /** The value of the first member with the key is what the lookup finds. */
  lemma {:induction false} LookupFirst(ms: Members, key: string, m: nat)
    requires m < |ms| && ms[m].0 == key
    requires forall n :: 0 <= n < m ==> ms[n].0 != key
    ensures Lookup(ms, key) == Some(ms[m].1)
    decreases m
  {
    if m > 0 {
      assert forall n :: 0 <= n < m - 1 ==> ms[1..][n] == ms[n + 1];
      LookupFirst(ms[1..], key, m - 1);
    }
  }

  /** `v, _ := x.(string)`: the string, or "" when `x` is missing or not a string. */
  function StringOr(v: Option<Json>): (r: string)
    ensures v.Some? && v.value.JString? ==> r == v.value.s
    ensures !(v.Some? && v.value.JString?) ==> r == ""
  {
    match v
    case Some(JString(s)) => s
    case _ => ""
  }

  /** The members of an object, or none at all: what a Go map decoded from
      `j` holds when decoding into `map[string]interface{}` leaves it nil. */
  function MembersOr(j: Json): Members
  {
    if j.JObject? then j.members else []
  }

  /** The word `encoding/json` uses for a value that cannot be decoded into a map. */
  function KindName(j: Json): string
  {
    match j
    case JNull => "null"
    case JBool(_) => "bool"
    case JNumber(_) => "number"
    case JString(_) => "string"
    case JArray(_) => "array"
    case JObject(_) => "object"
  }

  /** The decoder's message for a non-object value decoded into a map. */
  function UnmarshalIntoMapMessage(j: Json): string
  {
    "json: cannot unmarshal " + KindName(j) + " into Go value of type map[string]interface {}"
  }
}
