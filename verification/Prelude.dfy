/** Shared vocabulary: optional values, results, and the clock's units. */
module Prelude {
  datatype Option<+T> = None | Some(value: T)

  datatype Result<+T, +E> = Ok(value: T) | Err(error: E)

  type Byte = b: int | 0 <= b < 256

  /** The salt a password is hashed with: sixteen random bytes. */
  type Salt = s: seq<Byte> | |s| == 16 witness seq(16, _ => 0)

  /** An instant or a duration, in nanoseconds since the Unix epoch, the
      resolution Go's time.Time and time.Duration have. */
  type Time = int

  const SECOND: Time := 1_000_000_000
  const MINUTE: Time := 60 * SECOND
  const HOUR: Time := 60 * MINUTE
}
