/** Option and result wrappers shared by the other modules. */
module Wrappers {

  /** Ruby's `nil`-or-value, for values that may be absent. */
  datatype Option<+T> = None | Some(value: T)

  /** The outcome of a call that may raise instead of returning. */
  datatype Result<+R, +E> = Success(value: R) | Failure(error: E)
}
