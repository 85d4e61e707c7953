/** Option values and the Python exceptions the modelled code can raise. */
module Wrappers {

  datatype Option<+T> = None | Some(value: T) {
    /** `d.get(key, default)` once the lookup has produced this option. */
    function GetOr(default: T): T {
      match this
      case Some(v) => v
      case None => default
    }
  }

  /** The exception classes that reach a caller somewhere in the modelled code. */
  datatype PyError =
    | TypeError
    | AttributeError
    | GNewsApiError
    | RuntimeError
    | ValueError

  /** A Python call either returns a value or raises. */
  datatype Outcome<+T> = Ok(value: T) | Raised(error: PyError)

  function Min(a: int, b: int): int { if a <= b then a else b }
  function Max(a: int, b: int): int { if a >= b then a else b }
}
