/** An optional value: the model's stand-in for a React ref whose `current` may be `undefined`. */
module Wrappers {

  datatype Option<+T> = None | Some(value: T)
}
