/** Optional values and results, used for the source's `undefined`/`null` returns
    and for the errors it throws. */
module Wrappers {

  datatype Option<+T> = None | Some(value: T)

  /** A returned value, or the message of the error the source throws. */
  datatype Result<+T> = Success(value: T) | Failure(error: string)

  /** The completion of an operation that returns nothing, or the message of the error it throws. */
  datatype Outcome = Pass | Fail(error: string)
}
