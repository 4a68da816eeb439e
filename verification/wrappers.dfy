/** The optional value the lookups and parsers return. */
module Wrappers {
  datatype Option<T> = None | Some(value: T)
}
