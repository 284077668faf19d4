/** An optional value: `None` stands for Python's `None` or for a failed
    lookup. */
module Wrappers {
  datatype Option<T> = None | Some(value: T)
}
