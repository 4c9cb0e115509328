/** The optional value the model uses wherever the source returns `None` or may fail. */
module Wrappers {
  datatype Option<T> = None | Some(value: T)
}
