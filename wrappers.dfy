/** The outcome of a platform call: a reading, or nothing when the call failed. */
module Wrappers {

  datatype Option<+T> = None | Some(value: T)
}
