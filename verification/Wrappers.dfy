/** Results that stand for a Python value that may be absent, or a call that may raise. */
module Wrappers {
  datatype Option<+T> = None | Some(value: T)
}
