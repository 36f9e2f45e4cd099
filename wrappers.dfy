/** Small value wrappers shared by the other modules. */
module Wrappers {

  /** A value that may be absent: a failed quote lookup, an empty SQL result, an unset date. */
  datatype Option<+T> = None | Some(value: T)
}
