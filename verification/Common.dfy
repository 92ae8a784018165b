/** Types shared by the modules. */
module Common {
  /** The Some/None type used wherever the source returns a value or `None`. */
  datatype Option<+T> = None | Some(value: T) {
    function GetOr(default: T): T {
      match this
      case Some(v) => v
      case None => default
    }
  }

  type byte = b: int | 0 <= b < 256
}
