// Small shared value types.

module Wrappers {
  /** A value that may be absent: a failed lookup, a null pointer, an unmatched search. */
  datatype Option<T> = None | Some(value: T)
}
