/** Optional cells and optional results, as the Swift code's `T?` and implicitly unwrapped pointers. */
module Wrappers {
  datatype Option<+T> = None | Some(value: T)
}
