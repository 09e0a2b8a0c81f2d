/** Failure-carrying datatypes used by the handlers' results. */
module Wrappers {

  /** A value that may be absent (JavaScript's `undefined`/`null`). */
  datatype Option<+T> = None | Some(value: T)

  /** A handler result: a response value, or one of the error replies. */
  datatype Result<+T, +E> = Success(value: T) | Failure(error: E)

  /** A handler result that carries no value on success. */
  datatype Outcome<+E> = Pass | Fail(error: E)
}
