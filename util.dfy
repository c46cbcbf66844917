/** Small helpers shared by both games. */
module Util {

  /** A value that may be absent (JavaScript's NaN or a missing choice). */
  datatype Option<T> = None | Some(value: T)

  function Max(a: int, b: int): int { if a >= b then a else b }

  function MaxReal(a: real, b: real): real { if a >= b then a else b }

  function MinReal(a: real, b: real): real { if a <= b then a else b }
}
