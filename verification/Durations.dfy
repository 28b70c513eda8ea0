/** Times are integers in nanoseconds, as Go's time.Duration counts them. */
module Durations {

  const SECOND: int := 1_000_000_000
  const MINUTE: int := 60 * SECOND
}
