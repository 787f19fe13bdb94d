/** Failure-carrying wrappers shared by the model: an optional value and a
    value-or-error result. */
module Outcomes {

  /** A value that may be absent (a nil value or an ignored error in Go). */
  datatype Option<T> = None | Some(value: T)

  /** Either a computed value or the error that prevented it. */
  datatype Result<T, E> = Success(value: T) | Failure(error: E)
}
