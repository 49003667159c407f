// What a header decoder returns, and what the bytes still to come say it has to return.
module Parsing {
  import opened Bytes

  /** What a decoding coroutine returns or throws. */
  datatype Outcome<+E, +T> = Decoded(value: T) | Failed(error: E)

  /** The same with the bytes that follow. */
  datatype Result<+E, +T> = Ok(value: T, rest: seq<byte>) | Err(error: E)

  predicate Agrees<E(==), T(==)>(outcome: Outcome<E, T>, remaining: seq<byte>, result: Result<E, T>) {
    match result
    case Ok(value, rest) => outcome == Decoded(value) && remaining == rest
    case Err(e) => outcome == Failed(e)
  }
}
