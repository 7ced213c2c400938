/** The optional value used where PHP returns `false` instead of a result. */
module Wrappers {
  datatype Option<T> = None | Some(value: T)
}
