/**
 * JSON values as `JSON.parse` produces them and as the handlers read them back:
 * JavaScript truthiness, the `a || b` default, and reading an object property.
 */
module JsonValue {
  import opened Wrappers

  datatype Json =
    | Null
    | Bool(b: bool)
    | Number(n: real)
    | Str(s: string)
    | Array(items: seq<Json>)
    | Object(fields: map<string, Json>)

  /** JavaScript truthiness of a value; an absent property (`undefined`) is falsy. */
  predicate Truthy(v: Option<Json>)
  {
    match v
    case None => false
    case Some(Null) => false
    case Some(Bool(b)) => b
    case Some(Number(n)) => n != 0.0
    case Some(Str(s)) => s != []
    case Some(Array(_)) => true
    case Some(Object(_)) => true
  }

  /** `a || b`: the left operand when it is truthy, the right one otherwise. */
  function Or(a: Option<Json>, b: Json): (r: Json)
    ensures Truthy(a) ==> Some(r) == a
    ensures !Truthy(a) ==> r == b
    ensures Truthy(Some(r)) <==> Truthy(a) || Truthy(Some(b))
  {
    if Truthy(a) then a.value else b
  }

  /**
   * The property names the handlers read from a parsed reply. JavaScript gives
   * none of them to a string, an array, a number, a boolean or a plain object
   * by inheritance (unlike `length` or `constructor`), so only an object's own
   * field can supply one.
   */
  const ReadKeys: set<string> := {"fixedCode", "explanation", "recommendations"}

  /**
   * `v.key` for a value that is not `null` and one of the keys read: an
   * object's own field, and `undefined` for every other kind of value.
   */
  function Get(v: Json, key: string): (r: Option<Json>)
    requires !v.Null? && key in ReadKeys
    ensures r.Some? <==> v.Object? && key in v.fields
    ensures r.Some? ==> r.value == v.fields[key]
  {
    if v.Object? && key in v.fields then Some(v.fields[key]) else None
  }
}
