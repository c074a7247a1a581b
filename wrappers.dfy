/** A value that may be missing: the model's stand-in for a pandas NaN cell. */
module Wrappers {

  datatype Option<+T> = None | Some(value: T)
}
