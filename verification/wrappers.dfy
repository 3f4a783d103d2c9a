/** A missing cell (pandas NaN / NaT) or an absent optional value. */
module Wrappers {
  datatype Option<+T> = None | Some(value: T)
}
