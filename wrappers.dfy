/** Optional values, used for the model's "nothing there" and "could not read" results. */
module Wrappers {
  datatype Option<+T> = None | Some(value: T)
}
