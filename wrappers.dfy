/** The optional value used throughout the model for Python's `Optional[...]`. */
module Wrappers {

  datatype Option<+T> = None | Some(value: T)
}
