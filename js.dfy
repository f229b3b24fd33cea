/** JavaScript values as the calendar code sees them: only the shapes that a
    resource id can take, and the language's notion of truthiness. */
module Js {

  /** A value that may be absent (`null`/`undefined` in the source). */
  datatype Option<+T> = None | Some(value: T)

  /** A resource id as returned by an accessor: `undefined`, `null`, a string
      or an integral number. Equality of these values is JavaScript's `===`
      (and the SameValueZero used by `Array.prototype.includes` and `Map`),
      since no NaN can be represented. */
  datatype Value = Undefined | Null | Str(s: string) | Num(n: int)

  /** JavaScript truthiness: `undefined`, `null`, `""` and `0` are falsy. */
  predicate Truthy(v: Value)
  {
    match v
    case Undefined => false
    case Null => false
    case Str(s) => s != ""
    case Num(n) => n != 0
  }
}
