/** The optional value used throughout the model for Python's `None` and pandas' missing cells (NaN, NaT). */
module Wrappers {

  datatype Option<+T> = None | Some(value: T)
}
