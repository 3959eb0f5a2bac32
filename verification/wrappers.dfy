/** Option and Result values standing for Python's None and for raised exceptions. */
module Wrappers {

  datatype Option<+T> = None | Some(value: T)

  /** The Python exception classes the modelled code can raise. */
  datatype Exception =
    | KeyError
    | IndexError
    | ValueError
    | TypeError
    | AttributeError
    | AssertionError
    | ZeroDivisionError
    | OSError
    | UnboundLocalError

  /** A value, or the exception that was raised instead of returning it. */
  datatype Result<+T> = Ok(value: T) | Err(error: Exception)

  /** The outcome of a statement run for its effect only. */
  datatype Outcome = Done | Raised(error: Exception)
}
