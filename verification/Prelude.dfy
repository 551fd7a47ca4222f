/** Shared result types. */
module Prelude {
  datatype Option<+T> = None | Some(value: T)

  function Min(a: real, b: real): (m: real) {
    if a <= b then a else b
  }
}
