/** Small value wrappers shared by every module of the model. */
module Common {

  /** An optional value (Rust's `Option`, Python's `None`-or-value). */
  datatype Option<+T> = None | Some(value: T)

  /** A value or an error (Rust's `Result`, a Python exception). */
  datatype Result<+T, +E> = Ok(value: T) | Err(error: E)

  function Max(a: nat, b: nat): nat
  {
    if a >= b then a else b
  }

  function Min(a: nat, b: nat): nat
  {
    if a <= b then a else b
  }
}
