/** Small shared vocabulary: optional values and the time line. */
module Common {

  datatype Option<+T> = None | Some(value: T)

  newtype byte = x: int | 0 <= x < 256

  /** Instants and durations, in nanoseconds as in Go's time package. */
  type Time = int

  const SECOND: Time := 1_000_000_000
  const MILLISECOND: Time := 1_000_000
}
