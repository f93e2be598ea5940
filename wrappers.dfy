/** Small failure-carrying datatypes shared by the ledger model. */
module Wrappers {

  /** Rust's `Option<T>`. */
  datatype Option<+T> = None | Some(value: T)

  /** Rust's `Result<(), E>`: either the check passed or it failed with `error`. */
  datatype Outcome<+E> = Pass | Fail(error: E)
}
