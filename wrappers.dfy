/** A missing table cell (pandas NaN / None) is `None`. */
module Wrappers {
  datatype Option<+T> = None | Some(value: T)
}
