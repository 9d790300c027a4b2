/** The optional value used for Python's `None` results and for the points
    where the source raises instead of returning. */
module Wrappers {
  datatype Option<+T> = None | Some(value: T)
}
