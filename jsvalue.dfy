/** Values as the bot's JavaScript sees them: the heterogeneous message
    payloads delivered by the chat library, JavaScript truthiness, and
    optional-chaining property access. */
module JsValue {

  import opened Wrappers

  /** A JavaScript value as found in a message payload.  `Bytes` stands for
      a Buffer or Uint8Array; an object is its fields in key order. */
  datatype Json =
    | Undefined
    | Null
    | Bool(b: bool)
    | Num(n: int)
    | Str(s: string)
    | Bytes(bytes: seq<bv8>)
    | Arr(items: seq<Json>)
    | Obj(fields: seq<(string, Json)>)

  /** JavaScript truthiness: "", 0, false, null and undefined are falsy;
      every object, array and buffer is truthy. */
  predicate Truthy(j: Json) {
    match j
    case Undefined => false
    case Null => false
    case Bool(b) => b
    case Num(n) => n != 0
    case Str(s) => s != ""
    case _ => true
  }

  /** Value of field `k` in a list of fields (the first binding wins). */
  function Lookup(fields: seq<(string, Json)>, k: string): (r: Json)
    ensures r != Undefined ==> exists i :: 0 <= i < |fields| && fields[i].0 == k && fields[i].1 == r
  {
    if |fields| == 0 then Undefined
    else if fields[0].0 == k then fields[0].1
    else Lookup(fields[1..], k)
  }

  /** `j?.k`: a property of an object, and `undefined` for anything else
      (a property of a string or a number is undefined as well). */
  function Get(j: Json, k: string): Json {
    match j
    case Obj(fields) => Lookup(fields, k)
    case _ => Undefined
  }

  /** `Object.keys(j)` for an object, [] for anything else. */
  function Keys(j: Json): (r: seq<string>)
    ensures j.Obj? ==> |r| == |j.fields|
  {
    match j
    case Obj(fields) => seq(|fields|, i requires 0 <= i < |fields| => fields[i].0)
    case _ => []
  }

  /** A string when `j` is a non-empty string, else None: how `x || fallback`
      reads a string field. */
  function TruthyStr(j: Json): (r: Option<string>)
    ensures r.Some? <==> j.Str? && j.s != ""
  {
    if j.Str? && j.s != "" then Some(j.s) else None
  }

  /** `x === undefined` / `x !== undefined` on an optional string field. */
  function OptStr(j: Json): (r: Option<string>)
    ensures r.Some? <==> j.Str?
  {
    if j.Str? then Some(j.s) else None
  }
}
