/** The optional value used where JavaScript produces NaN or "nothing found". */
module Wrappers {
  datatype Option<+T> = None | Some(value: T)
}
