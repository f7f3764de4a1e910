/** Option and Outcome: absence of a value, and the result of a step that may abort. */
module Wrappers {

  /** A value that may be absent (a Java reference that may be null). */
  datatype Option<+T> = None | Some(value: T)

  /** The result of a void Java method: it returns normally, or it throws `error`. */
  datatype Outcome<+E> = Pass | Fail(error: E)

  /** A value, or the error thrown instead of computing it. */
  datatype Result<+R, +E> = Success(value: R) | Failure(error: E)
}
