/**
  The few pieces of JavaScript semantics the three components lean on:
  the primitive values a JSON request body can carry in a field, their
  truthiness (the `!x` tests of the request handlers), and `Option` for
  "a value or nothing" (`undefined` results of browser lookups).
 */
module Js {

  /** A value or its absence. */
  datatype Option<+T> = None | Some(value: T)

  /**
    A primitive JavaScript value as it can arrive in a field of a parsed
    JSON body; a field the body does not have reads as `Undefined`.
    JSON numbers are modelled by their integer values.
   */
  datatype Value = Undefined | Null | Bool(b: bool) | Num(n: int) | Str(s: string)

  /** JavaScript's ToBoolean on a primitive: `undefined`, `null`, `false`, `0` and `""` are falsy. */
  predicate Truthy(v: Value)
    ensures Truthy(v) <==> v !in {Undefined, Null, Bool(false), Num(0), Str("")}
  {
    match v
    case Undefined => false
    case Null => false
    case Bool(b) => b
    case Num(n) => n != 0
    case Str(s) => s != ""
  }

}
