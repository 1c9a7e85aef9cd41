/**
 * JSON documents as the route handlers and the schema validator see them:
 * request bodies, query objects and the parsed `filters` fragment.
 * Numbers are integers (every number the modelled code handles is a count,
 * an amount in cents or a number of seconds).
 */
module Json {

  datatype Value =
    | Null
    | Bool(b: bool)
    | Num(n: int)
    | Str(s: string)
    | Arr(items: seq<Value>)
    | Obj(fields: map<string, Value>)

  /** The JSON object `{key: v}` with one member. */
  function Single(key: string, v: Value): (r: Value)
    ensures r.Obj? && r.fields.Keys == {key} && r.fields[key] == v
  {
    Obj(map[key := v])
  }

  /** JavaScript truthiness of a JSON value: `null`, `false`, `0` and `""` are falsy. */
  predicate Truthy(v: Value) {
    match v
    case Null => false
    case Bool(b) => b
    case Num(n) => n != 0
    case Str(s) => s != ""
    case _ => true
  }

  /** A JSON array of strings. */
  function Strings(ss: seq<string>): (r: Value)
    ensures r.Arr? && |r.items| == |ss|
    ensures forall i :: 0 <= i < |ss| ==> r.items[i] == Str(ss[i])
  {
    Arr(seq(|ss|, i requires 0 <= i < |ss| => Str(ss[i])))
  }
}
