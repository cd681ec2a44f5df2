/** Option and Result values, standing in for Python's `None` and for
    raised exceptions. */
module Wrappers {

  datatype Option<+T> = None | Some(value: T)

  /** `Failure(e)` is the model of a Python `raise`. */
  datatype Result<+R, +E> = Success(value: R) | Failure(error: E)
}
