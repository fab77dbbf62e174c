/** An optional value. */
module Wrappers {

  /** `None` is a field that is not there: an array index past the end,
      which JavaScript reads as `undefined`. */
  datatype Option<+T> = None | Some(value: T)
}
