/**
 The few pieces of JavaScript value semantics the components rely on:
 optional values (`undefined`), the nullish-coalescing operator `??`
 and the truthiness of an optional string.
 */
module Js {

  /** A value that may be `undefined`. */
  datatype Option<+T> = None | Some(value: T) {

    /** `this ?? default` for a plain default value. */
    function GetOr(default: T): T {
      match this
      case Some(v) => v
      case None => default
    }
  }

  /** `a ?? b` where both operands may be `undefined`: `??` only looks
      past `undefined`, so `Some("")` is kept. */
  function OrElse<T>(a: Option<T>, b: Option<T>): (r: Option<T>)
    ensures a.Some? ==> r == a
    ensures a.None? ==> r == b
  {
    if a.Some? then a else b
  }

  /** An optional string used as a condition (`if (hint)`, `hint && …`):
      both `undefined` and the empty string are falsy. */
  predicate Truthy(s: Option<string>) {
    s.Some? && s.value != ""
  }
}
