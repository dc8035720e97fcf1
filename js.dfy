/**
 * The JavaScript values the article handlers see: what `request.json()`
 * produces, plus `undefined` for a property that is absent.
 */
module Js {

  /** JSON numbers are finite, so NaN and the infinities do not arise. */
  datatype Value =
    | Undefined
    | Null
    | Bool(b: bool)
    | Num(n: real)
    | Str(s: string)
    | Arr(items: seq<Value>)
    | Obj(fields: map<string, Value>)

  /** Reading a property of `null` or `undefined` throws a TypeError. */
  predicate Nullish(v: Value) {
    v.Undefined? || v.Null?
  }

  /** ECMAScript ToBoolean: what `!v` and `v || d` test. */
  predicate Truthy(v: Value) {
    match v
    case Undefined => false
    case Null => false
    case Bool(b) => b
    case Num(n) => n != 0.0
    case Str(s) => s != []
    case Arr(_) => true
    case Obj(_) => true
  }

  /** `a || b`: the first operand when it is truthy, otherwise the second. */
  function Or(a: Value, b: Value): Value {
    if Truthy(a) then a else b
  }

  /**
   * The property read `v.key` on a value that is neither null nor undefined.
   * Only objects carry the data properties the handlers read; on a string,
   * number, boolean or array each of them is `undefined`.
   */
  function Prop(v: Value, key: string): Value
    requires !Nullish(v)
  {
    if v.Obj? && key in v.fields then v.fields[key] else Undefined
  }
}
