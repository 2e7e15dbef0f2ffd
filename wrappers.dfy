/** Optional values: an absent clock, a message that failed to parse, an unpublished status. */
module Wrappers {

  datatype Option<+T> = None | Some(value: T)
}
