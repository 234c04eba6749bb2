/** The one failure-free optional value used by every table of the model. */
module Wrappers {
  datatype Option<+T> = None | Some(value: T)
}
