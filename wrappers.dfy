/** The optional value the source writes as a nullable type (`Rect?`, `Arrow?`). */
module Wrappers {
  datatype Option<T> = None | Some(value: T)
}
