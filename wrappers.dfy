/** An optional value: the source's null or undefined on one side, a value on the other. */
module Wrappers {
  datatype Option<T> = None | Some(value: T)
}
