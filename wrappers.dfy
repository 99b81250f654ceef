/** Option, standing for a nullable value (a pandas cell that may be NaN). */
module Wrappers {

  datatype Option<+T> = None | Some(value: T)
}
