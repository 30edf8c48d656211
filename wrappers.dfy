/** Optional values, used for reads that may run past the end of a message
    and for an announcement channel that may be closed. */
module Wrappers {
  datatype Option<+T> = None | Some(value: T)
}
