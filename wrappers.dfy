/** A value that may be absent: Java's null reference. */
module Wrappers {
  datatype Option<T> = None | Some(value: T)
}
