/** Value types the workout-session resource borrows from its framework:
    nullable values, UUIDs and timestamps. */
module Common {

  /** A nullable value (Python's `Optional[T]`, a nullable column). */
  datatype Option<T> = None | Some(value: T)

  /** A 128-bit UUID, the externally visible identity of a session. */
  type Uuid = x: int | 0 <= x < 0x1_0000_0000_0000_0000_0000_0000_0000_0000

  /** A point in time, as a count of microseconds since the epoch. */
  type DateTime = int
}
