/** Values that JavaScript expresses with `undefined` and with exceptions. */
module Outcomes {

  /** A value that may be `undefined`. */
  datatype Option<T> = None | Some(value: T) {
    function GetOr(default: T): T {
      match this
      case Some(v) => v
      case None => default
    }
  }

  /** How a call ends: normally with a value, or by throwing. */
  datatype Completion<T> = Normal(value: T) | Throw
}
