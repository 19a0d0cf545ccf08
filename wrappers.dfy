/** Small optional-value type shared by the quiz and chat models. */
module Wrappers {
  datatype Option<+T> = None | Some(value: T)
}
