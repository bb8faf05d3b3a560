// Shared vocabulary: optional values and the clock.

module Common {
  datatype Option<+T> = None | Some(value: T)

  // Seconds since the Unix epoch. Every clock the services read is the same wall clock.
  type Time = real
}
