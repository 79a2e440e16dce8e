/**
 * JavaScript values as they reach the request handlers: what `request.json()`
 * can produce, plus `Undefined` for reading a key an object does not have.
 * Numbers are kept as integers: the handlers only ever ask whether a number is zero.
 */
module Json {

  datatype Value =
    | Undefined
    | Null
    | Bool(b: bool)
    | Num(n: int)
    | Str(s: string)
    | Arr(items: seq<Value>)
    | Obj(fields: map<string, Value>)

  /** JavaScript truthiness: `!v` holds exactly when this is false. */
  predicate Truthy(v: Value)
  {
    match v
    case Undefined => false
    case Null => false
    case Bool(b) => b
    case Num(n) => n != 0
    case Str(s) => s != ""
    case Arr(_) => true
    case Obj(_) => true
  }

  /** The `typeof` operator (arrays and null are "object"). */
  function TypeOf(v: Value): (t: string)
    ensures t == "object" <==> v.Null? || v.Arr? || v.Obj?
  {
    match v
    case Undefined => "undefined"
    case Null => "object"
    case Bool(_) => "boolean"
    case Num(_) => "number"
    case Str(_) => "string"
    case Arr(_) => "object"
    case Obj(_) => "object"
  }

  /** The type name zod reports for a value it did not expect ("array" and "null" are told apart). */
  function ParsedTypeName(v: Value): string
  {
    match v
    case Undefined => "undefined"
    case Null => "null"
    case Bool(_) => "boolean"
    case Num(_) => "number"
    case Str(_) => "string"
    case Arr(_) => "array"
    case Obj(_) => "object"
  }

  /** Property read `o[k]`: a missing key reads as undefined. */
  function Get(fields: map<string, Value>, k: string): (v: Value)
    ensures k !in fields ==> v.Undefined?
    ensures k in fields ==> v == fields[k]
  {
    if k in fields then fields[k] else Undefined
  }
}
