/** Small value types shared by every module of the model. */
module Common {

  /** An octet, as held in a Python `bytes` object. */
  type byte = x: int | 0 <= x < 256

  /** A Python value that may be `None`. */
  datatype Option<+T> = None | Some(value: T)
}
