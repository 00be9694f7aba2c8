/** An optional value (Rust's `Option`) and a value-less outcome (Rust's
    `Result<(), E>`), used throughout the model. */
module Wrappers {

  /** Some value or none, as returned by a table lookup. */
  datatype Option<+T> = None | Some(value: T)

  /** The outcome of an operation that yields `()` on success. */
  datatype Outcome<+E> = Pass | Fail(error: E)
}
