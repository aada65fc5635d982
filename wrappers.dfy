/** A value that may be absent: `undefined` or a failed match in the source. */
module Wrappers {

  datatype Option<+T> = None | Some(value: T)
}
