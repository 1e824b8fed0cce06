/** Small value wrappers shared by the whole model. */
module Wrappers {

  /** A value that may be absent (JavaScript `null`/`undefined` collapsed into one case). */
  datatype Option<+T> = None | Some(value: T) {
    function GetOr(default: T): T {
      match this
      case Some(v) => v
      case None => default
    }
  }

  /** The outcome of an operation that can throw. */
  datatype Result<+T, +E> = Success(value: T) | Failure(error: E)

  /** A property of a JSON object as it sits in the persisted snapshot: the key may be
      missing, hold `null`, or hold a value. */
  datatype Field<+T> = Absent | Null | Present(value: T)
}
