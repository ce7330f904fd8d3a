/** Values that may be missing: Go's nil results and comma-ok pairs. */
module Wrappers {
  datatype Option<+T> = None | Some(value: T)
}
