/** Readings of the clock. */
module Timing {

  /** Microseconds since the epoch, the resolution of the program's timestamps. */
  type Time = int

  const SECOND: int := 1_000_000
  const HOUR: int := 3_600_000_000
  const DAY: int := 86_400_000_000
}
