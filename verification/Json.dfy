/** JSON values and the accessors the drivers project messages with. */
module Json {
  import opened Prelude

  datatype Value =
    | Null
    | Bool(b: bool)
    | Number(n: int)
    | Str(s: string)
    | Array(items: seq<Value>)
    | Object(fields: map<string, Value>)

  function Get(v: Value, field: string): Option<Value> {
    if v.Object? && field in v.fields then Some(v.fields[field]) else None
  }

  /** The field at the end of a path of object keys. */
  function At(v: Value, path: seq<string>): Option<Value>
    decreases |path|
  {
    if path == [] then Some(v)
    else
      match Get(v, path[0])
      case None => None
      case Some(inner) => At(inner, path[1..])
  }

  function AsString(v: Option<Value>): Option<string> {
    if v.Some? && v.value.Str? then Some(v.value.s) else None
  }

  /** Numbers outside the unsigned 64-bit range are not read as u64. */
  function AsU64(v: Option<Value>): Option<nat> {
    if v.Some? && v.value.Number? && 0 <= v.value.n <= U64_MAX then Some(v.value.n) else None
  }

  function StringAt(v: Value, path: seq<string>): Option<string> {
    AsString(At(v, path))
  }
}
