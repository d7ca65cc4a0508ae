/** Failure-compatible optional values, used wherever the source reads a
    possibly-undefined value (a `Map.get`, a regex match, a parse result). */
module Wrappers {

  datatype Option<+T> = None | Some(value: T)
}
