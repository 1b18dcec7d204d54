/** Optional values and success-or-failure results, used for the nullable
    lookups and the exceptions of the modelled services. */
module Wrappers {

  datatype Option<+T> = None | Some(value: T)

  /** The value a call returns, or the exception it throws instead. */
  datatype Result<+R, +E> = Success(value: R) | Failure(error: E)

  /** A call that returns nothing, or the exception it throws instead. */
  datatype Outcome<+E> = Pass | Fail(error: E)
}
