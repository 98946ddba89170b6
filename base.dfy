/** Shared value types: optional values and bytes. */
module Base {

  /** A value that may be absent (`undefined` or `null` in the source). */
  datatype Option<+T> = None | Some(value: T) {
    function GetOr(default: T): T {
      match this
      case Some(v) => v
      case None => default
    }
  }

  /** One byte of a file buffer. */
  newtype byte = x: int | 0 <= x < 256
}
