/** Failure-carrying values used where the script either does nothing or raises. */
module Wrappers {

  /** An optional value: a widget that may have no selection. */
  datatype Option<+T> = None | Some(value: T)

  /** A value or an error, standing for a Python call that may raise. */
  datatype Result<+R, +E> = Success(value: R) | Failure(error: E)
}
