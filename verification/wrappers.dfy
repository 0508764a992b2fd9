/** Failure-carrying result types shared by every module of the model. */
module Wrappers {

  /** A value that may be missing: a nullable column, an absent form field or cookie. */
  datatype Option<+T> = None | Some(value: T)

  /** The `{ success, ... }` / `{ success: false, error }` objects the server actions return. */
  datatype Result<+R, +E> = Ok(value: R) | Err(error: E)

  /** A success flag without a payload (`{ success: true }`). */
  datatype Outcome<+E> = Pass | Fail(error: E)
}
