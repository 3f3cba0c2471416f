/** The optional value used wherever the engine returns `None` or a value. */
module Wrappers {
  datatype Option<T> = None | Some(value: T)
}
