/** Failure-carrying values shared by every module of the model.
    The C++ sources signal errors by throwing standard exceptions; the model
    returns `Fail(e)` with the exception class instead. */
module Wrappers {

  datatype Option<+T> = None | Some(value: T)

  /** The standard exception classes the sources throw. */
  datatype Exception =
    | RuntimeError
    | InvalidArgument
    | LogicError
    | OutOfRange

  datatype Result<+T> = Ok(value: T) | Fail(error: Exception)

  /** Outcome of an operation that returns nothing but may throw. */
  datatype Status = Done | Raised(error: Exception)
}
