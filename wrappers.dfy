/** Option and Result, for Go's nil-or-error returns. */
module Wrappers {

  /** `None` plays the role of a nil error / nil value. */
  datatype Option<+T> = None | Some(value: T)

  /** The outcome of a call into a collaborator that may fail with a message. */
  datatype Result<+R, +E> = Success(value: R) | Failure(error: E)
}
