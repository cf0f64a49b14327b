/** The optional-value datatype used across the model: a measurement that a
    missing surface cannot supply, or an event with no handler target. */
module Wrappers {

  datatype Option<+T> = None | Some(value: T)
}
