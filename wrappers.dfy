/** Nullable cells and raised exceptions of the pipeline. */
module Wrappers {

  /** A nullable cell of a data frame or SQL table: `None` is NULL (or NaN). */
  datatype Option<+T> = None | Some(value: T)

  /** The outcome of a stage that may raise instead of returning a frame. */
  datatype Result<+T> = Success(value: T) | Failure(reason: string)
}
