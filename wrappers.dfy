/** Option and Result: the failure-carrying values used by the pipeline model. */
module Wrappers {

  /** A table cell that may be missing: `None` stands for pandas' NaN / None / NaT. */
  datatype Option<+T> = None | Some(value: T)

  /** The outcome of a step that can raise: `Err` stands for the exception. */
  datatype Result<+T, +E> = Ok(value: T) | Err(error: E)
}
