/** JavaScript values as they reach a schema check: parsed JSON bodies and mapped objects. */
module Json {

  /** `Undefined` is JavaScript's `undefined`, the value of a missing property. */
  datatype Value =
    | Undefined
    | Null
    | Bool(b: bool)
    | Num(n: int)
    | Str(s: string)
    | Arr(items: seq<Value>)
    | Obj(fields: map<string, Value>)

  /** Property access `o[key]`: a missing key reads as `undefined`. */
  function Get(fields: map<string, Value>, key: string): Value
  {
    if key in fields then fields[key] else Undefined
  }

  /** The type name zod reports in "Expected X, received Y". */
  function TypeName(v: Value): string
  {
    match v
    case Undefined => "undefined"
    case Null => "null"
    case Bool(_) => "boolean"
    case Num(_) => "number"
    case Str(_) => "string"
    case Arr(_) => "array"
    case Obj(_) => "object"
  }
}
