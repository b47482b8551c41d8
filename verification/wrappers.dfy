/** Python's `Optional`, used throughout the model. */
module Wrappers {

  /** `Optional[T]`: either a value or `None`. */
  datatype Option<+T> = None | Some(value: T)
}
