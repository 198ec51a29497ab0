/** The optional value used for lookups that may miss (Rust's `Option`). */
module Wrappers {
  datatype Option<+T> = None | Some(value: T)
}
