/** Option and Result values for the partial steps of the pipeline. */
module Wrappers {

  datatype Option<+T> = None | Some(value: T)

  /** The outcome of a step that the source lets raise: a value, or the
      input that made it fail. */
  datatype Result<+T, +E> = Success(value: T) | Failure(error: E)
}
