/** The one failure-compatible datatype this model needs. */
module Wrappers {

  /** A value that may be absent: an input packet that was not sent, or the
      result of a float division that would be NaN. */
  datatype Option<+T> = None | Some(value: T)
}
