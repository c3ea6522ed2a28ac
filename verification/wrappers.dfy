/** Failure-carrying datatypes shared by the model, and the Python exceptions
    that the modelled code lets propagate to its caller. */
module Wrappers {

  /** A Python `None`-able value. */
  datatype Option<+T> = None | Some(value: T)

  /** The exceptions the kernel can raise. None of them is caught by the
      modelled code: each one ends the request or the evaluation run. */
  datatype Error =
    | KeyError(key: string)         // a dictionary lookup of a missing key
    | SearchError(reason: string)   // the search backend failed (unreachable, bad credentials, unknown index)
    | TypeError                     // an operator applied to `None`
    | IndexError                    // a row index outside the dataset
    | ZeroDivisionError             // a ratio over an empty dataset

  /** The value a Python expression evaluates to, or the exception it raises. */
  datatype Result<+T> = Success(value: T) | Failure(error: Error)

  /** The outcome of a Python procedure that works by side effect. */
  datatype Outcome = Pass | Fail(error: Error)
}
