/** Values, errors and results shared by every component of the cache chain. */
module CacheTypes {

  type Key = string

  /** A cached payload. `Nil` is the empty interface value: no layer is ever asked to
      store it by a caller, but a rejected circuit-breaker call can produce it. */
  datatype Value = Nil | Data(id: nat)

  datatype Option<+T> = None | Some(value: T)

  datatype Error =
    | NotFound
    | InvalidKey
    | Timeout
    | CircuitOpen
    | TooManyRequests
    | Unavailable
    | InvalidValue
    | Cancelled
    | QueueFull
    | WriterClosed
    | Other(kind: nat)

  /** What a read returns. */
  datatype Answer = Hit(value: Value) | Failed(error: Error)

  /** What a write or a removal returns. */
  datatype Outcome = Ok | Err(error: Error)
}
