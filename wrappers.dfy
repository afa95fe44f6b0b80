/** An optional value: the model's stand-in for `null`, `undefined` and `-1` lookups. */
module Wrappers {

  datatype Option<+T> = None | Some(value: T)
}
