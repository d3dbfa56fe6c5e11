/** An optional value, for `Optional[...]` results and documents that may be absent. */
module Wrappers {
  datatype Option<T> = None | Some(value: T)
}
