/** The optional value used throughout the model (Rust's `Option`, Python's `None`). */
module Wrappers {
  datatype Option<+T> = None | Some(value: T)
}
