/** Option and Result values used instead of None checks and raised exceptions. */
module Wrappers {

  datatype Option<+T> = None | Some(value: T)

  /** A computation that either produced a value or raised an exception whose
      `str(e)` is `error`. */
  datatype Result<+T> = Success(value: T) | Failure(error: string)
}
