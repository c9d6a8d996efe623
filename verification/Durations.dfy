/** Durations in nanoseconds, as in Go's time package. */
module Durations {

  const SECOND: int := 1_000_000_000
  const MINUTE: int := 60_000_000_000
  const HOUR: int := 60 * MINUTE
  const DAY: int := 24 * HOUR
}
