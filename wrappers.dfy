/** Failure-compatible result types shared by the modules of the model. */
module Wrappers {

  /** A slot that may or may not hold a value. */
  datatype Option<+T> = None | Some(value: T)

  /** The outcome of an operation that can raise in the modelled program. */
  datatype Result<+R, +E> = Success(value: R) | Failure(error: E)
}
