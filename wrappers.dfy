/** A value that may be absent: the result of a parse that can fail, or a
    record field that may be `None`. */
module Wrappers {
  datatype Option<+T> = None | Some(value: T)
}
