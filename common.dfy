/** Small value types shared by the three components. */
module Common {

  /** A value that may be absent: `undefined` on the JavaScript side. */
  datatype Option<+T> = None | Some(value: T)
}
