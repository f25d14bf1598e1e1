/** A value that may be absent, and a call that may raise an exception instead of returning. */
module Wrappers {
  datatype Option<+T> = None | Some(value: T)

  datatype Attempt<+T> = Returned(value: T) | Raised
}
