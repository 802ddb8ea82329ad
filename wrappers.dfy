/** The optional value and the success-or-error result that the crackers return. */
module Wrappers {

  datatype Option<T> = None | Some(value: T)

  /** A computation that either produces a value or stops with the error the
      source raises or exits with. */
  datatype Result<T> = Success(value: T) | Failure(error: string)
}
