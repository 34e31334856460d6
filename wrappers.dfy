/**
 * Result and Option: the error paths of the tools (an alert, a thrown
 * Error, an early return) are modelled as values rather than excluded by
 * preconditions.
 */
module Wrappers {

  datatype Option<+T> = None | Some(value: T)

  datatype Result<+T, +E> = Success(value: T) | Failure(error: E)
}
