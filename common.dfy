/** Small shared vocabulary: Python's `None`-or-value. */
module Common {

  /** A value that may be absent (Python `None`). */
  datatype Option<+T> = None | Some(value: T)
}
