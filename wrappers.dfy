/** Rust's `Option` and the success-or-error shape of `GameResult<()>`. */
module Wrappers {

  datatype Option<+T> = None | Some(value: T)

  /** `Ok(())` or an error carrying a message. */
  datatype Outcome<+E> = Pass | Fail(error: E)
}
