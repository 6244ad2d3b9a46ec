/** A value that may be absent: the result of a decoder or of a run that can fail. */
module Wrappers {

  datatype Option<+T> = None | Some(value: T)
}
