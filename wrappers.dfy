/** Failure-carrying results shared by every stage of the pipeline. */
module Wrappers {

  datatype Option<+T> = None | Some(value: T)

  datatype Result<+R, +E> = Success(value: R) | Failure(error: E)

  /** The Python exceptions the core can raise on its own. */
  datatype Failure =
    | DivisionByZero  // ZeroDivisionError: a float divided by 0.0
    | EmptySequence   // ValueError: max() of an empty list
}
