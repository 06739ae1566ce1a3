/** JSON values as the bridge sees them after `json.loads`, with Python's
    truthiness and dictionary lookups. Numbers are integers only. */
module Json {
  import opened Prelude

  datatype Value =
    | Null
    | Bool(b: bool)
    | Num(n: int)
    | Str(s: string)
    | Arr(items: seq<Value>)
    | Obj(fields: map<string, Value>)

  /** A JSON object; protocol messages and command parameters are these. */
  type Fields = map<string, Value>

  const EmptyObject: Value := Obj(map[])

  /** Python's truth value of the decoded value (`if v:`). */
  predicate Truthy(v: Value) {
    match v
    case Null => false
    case Bool(b) => b
    case Num(n) => n != 0
    case Str(s) => |s| > 0
    case Arr(a) => |a| > 0
    case Obj(f) => |f| > 0
  }

  /** What `body.get(key)` / `body[key]` can see: a body that is not an
      object makes both raise, a missing key makes only the latter raise. */
  datatype Found = NotAnObject | Missing | Present(v: Value)

  function Lookup(body: Value, key: string): (r: Found)
    ensures r.NotAnObject? <==> !body.Obj?
    ensures r.Present? <==> body.Obj? && key in body.fields
    ensures r.Present? ==> r.v == body.fields[key]
  {
    if !body.Obj? then NotAnObject
    else if key in body.fields then Present(body.fields[key])
    else Missing
  }

  /** `body.get(key, default)`: fails only when the body is not an object. */
  function GetOr(body: Value, key: string, default: Value): Option<Value> {
    match Lookup(body, key)
    case NotAnObject => None
    case Missing => Some(default)
    case Present(v) => Some(v)
  }

  /** `body[key]`: fails when the body is not an object or lacks the key. */
  function Index(body: Value, key: string): Option<Value> {
    match Lookup(body, key)
    case Present(v) => Some(v)
    case _ => None
  }
}
