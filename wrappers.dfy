/** A value that may be absent: JavaScript's `null`, an unset key or an invalid date. */
module Wrappers {

  datatype Option<+T> = None | Some(value: T)
}
