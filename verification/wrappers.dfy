/** The optional value the Rust code returns from lookups (`Option<T>`). */
module Wrappers {
  datatype Option<+T> = None | Some(value: T)
}
