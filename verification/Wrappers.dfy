/** Failure-carrying results shared by the modules of the model. */
module Wrappers {
  datatype Option<+T> = None | Some(value: T)

  datatype Result<+T, +E> = Success(value: T) | Failure(error: E)

  datatype Outcome<+E> = Pass | Fail(error: E)

  /** A write is stored, refused, or stored although an error comes back. */
  datatype WriteOutcome = Stored | Refused | Lost
}
