/** Option and Result, and the Python exceptions the solvers can raise. */
module Wrappers {

  datatype Option<+T> = None | Some(value: T)

  /** The built-in exceptions a solver raises on input it cannot handle. */
  datatype PyError = IndexError | KeyError | ValueError | TypeError | OverflowError | ZeroDivisionError | StopIteration | RuntimeError

  /** Either a value or the exception the Python code would have raised. */
  datatype Result<+T> = Ok(value: T) | Err(error: PyError)

  /**
   * The end of a loop whose termination the code does not guarantee: a
   * value, the fuel bound reached first, or an exception.
   */
  datatype Outcome<+T> = Done(value: T) | OutOfFuel | Failed(error: PyError)
}
