/** Outcome types shared by the whole model: a fallible result standing in for
    a Python call that either returns a value or raises, and an optional value
    standing in for Python's `None`. */
module Results {

  /** The value of a call that may raise: `Ok` on return, `Err` on an exception. */
  datatype Result<+T, +E> = Ok(value: T) | Err(error: E)

  /** A value that may be absent (`None` in Python). */
  datatype Option<+T> = None | Some(value: T) {

    /** The present value, or `default` when absent (Python's `dict.get(key, default)`). */
    function GetOr(default: T): T {
      match this
      case Some(v) => v
      case None => default
    }
  }
}
