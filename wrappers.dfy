/** The optional value used for an empty grid cell and an idle vehicle's task. */
module Wrappers {
  datatype Option<+T> = None | Some(value: T)
}
