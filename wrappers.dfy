/** A value that may be absent: an unset environment variable, a failed lookup. */
module Wrappers {

  datatype Option<+T> = None | Some(value: T)

}
