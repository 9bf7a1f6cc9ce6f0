/** JSON values as the functions and the client receive them, and their JavaScript truthiness. */
module JsValues {
  /** A parsed JSON value; an array or object is `Composite` (its contents are never inspected). */
  datatype Value = Null | Bool(b: bool) | Num(n: real) | Str(s: string) | Composite

  /** `if (value)`: `null`, `false`, `0` and `""` are falsy, everything else is truthy. */
  predicate Truthy(v: Value) {
    match v
    case Null => false
    case Bool(b) => b
    case Num(n) => n != 0.0
    case Str(s) => s != ""
    case Composite => true
  }
}
