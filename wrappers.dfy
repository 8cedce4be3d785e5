/** The optional value the Python code writes as `None` or a value. */
module Wrappers {
  datatype Option<T> = None | Some(value: T)
}
