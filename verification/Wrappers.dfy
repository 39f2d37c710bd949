// The outcome of an operation that the source reports with an (value, ok) or (value, error) pair.
module Wrappers {
  datatype Option<+T> = None | Some(value: T)
}
