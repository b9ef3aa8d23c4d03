/** Option and Result, the two failure-carrying value types the model uses. */
module Wrappers {

  /** An optional value: None stands for a value the source leaves non-finite. */
  datatype Option<+T> = None | Some(value: T)

  /** The outcome of a stage that can fail with a labelled cause. */
  datatype Result<+R, +E> = Success(value: R) | Failure(error: E)
}
