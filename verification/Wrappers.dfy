/** Values that may be absent: the source's null pointers and unset fields. */
module Wrappers {
  datatype Option<+T> = None | Some(value: T)
}
