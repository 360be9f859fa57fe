/**
 * The dynamic values that flow through widget values, `widgets_values`
 * arrays and JSON request bodies, with JavaScript's (and, for these cases,
 * Python's) notion of truthiness.
 */
module Js {
  import opened Text

  /** A JSON / JavaScript value. Numbers are modelled as integers. */
  datatype Value = Undefined | Null | Bool(b: bool) | Num(n: int) | Str(s: string)

  /** `if (v)` in JavaScript, `if v:` in Python. */
  predicate Truthy(v: Value) {
    match v
    case Undefined => false
    case Null => false
    case Bool(b) => b
    case Num(n) => n != 0
    case Str(s) => s != ""
  }

  /** `String(v)`: how `Array.prototype.join` renders a non-string separator. */
  function ToJsString(v: Value): (r: string)
    ensures v.Str? ==> r == v.s
    ensures Truthy(v) ==> r != ""
  {
    match v
    case Undefined => "undefined"
    case Null => "null"
    case Bool(b) => if b then "true" else "false"
    case Num(n) => IntToString(n)
    case Str(s) => s
  }
}
