/** Python's `None`-or-value results: a tag that may be absent. */
module Wrappers {
  datatype Option<+T> = None | Some(value: T)
}
