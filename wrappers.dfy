/** The optional value used for "no match" and "not laid out". */
module Wrappers {
  datatype Option<T> = None | Some(value: T)
}
