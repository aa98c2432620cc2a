/** Optional values, used for "no element under the point", "no hand in the
    frame" and "the stream ended without an error". */
module Wrappers {

  datatype Option<+T> = None | Some(value: T)
}
