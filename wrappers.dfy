/** The optional-value type used by every component (Rust's `Option`). */
module Wrappers {
  datatype Option<+T> = None | Some(value: T)
}
