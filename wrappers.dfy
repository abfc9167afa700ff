/** The optional value used across the model (JavaScript's `undefined` / a non-finite number). */
module Wrappers {
  datatype Option<+T> = None | Some(value: T)
}
