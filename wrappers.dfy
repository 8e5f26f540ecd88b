/** The optional value used wherever the Kotlin code has a nullable result. */
module Wrappers {
  datatype Option<T> = None | Some(value: T)

  function Min(a: nat, b: nat): nat {
    if a < b then a else b
  }
}
