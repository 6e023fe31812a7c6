/**
 * Failure-carrying results shared by the model. The Python code signals
 * errors by raising; every operation that can raise returns one of these
 * instead, naming the kind of exception it would raise.
 */
module Wrappers {

  /** The Python exception kinds raised by the modelled code. */
  datatype Exception =
    | ValueError
    | IndexError
    | KeyError
    | FileNotFoundError
    | ZeroDivisionError
    | StopIteration

  datatype Option<+T> = None | Some(value: T)

  /** A value, or the exception raised instead of returning it. */
  datatype Result<+T> = Success(value: T) | Failure(error: Exception)

  /** The outcome of a call that returns nothing when it succeeds. */
  datatype Outcome = Pass | Fail(error: Exception)
}
