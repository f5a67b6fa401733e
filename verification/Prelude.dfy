/** Datatypes and constants shared by every module of the model. */
module Prelude {

  datatype Option<+T> = None | Some(value: T)

  datatype Result<+T, +E> = Ok(value: T) | Err(error: E)

  type Text = string

  /** The longest identity token, in bytes. */
  const MAX_IDENTITY_BYTES: nat := 128

  /** A bounded non-empty token over an alphabet, whichever way its characters are represented. */
  predicate IsToken<T>(value: seq<T>, allowed: T -> bool) {
    1 <= |value| <= MAX_IDENTITY_BYTES && forall i :: 0 <= i < |value| ==> allowed(value[i])
  }

  /** The largest value of the 64-bit counters. */
  const U64_MAX: nat := 0xFFFF_FFFF_FFFF_FFFF

  /** The largest value of the 32-bit counters. */
  const U32_MAX: nat := 0xFFFF_FFFF

  function Min(a: nat, b: nat): nat {
    if a <= b then a else b
  }

  function Max(a: nat, b: nat): nat {
    if a <= b then b else a
  }
}
