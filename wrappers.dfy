/** The optional value used throughout the model for JavaScript's `undefined`-or-value results. */
module Wrappers {
  datatype Option<+T> = None | Some(value: T)
}
