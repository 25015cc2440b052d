/** Go's unit of time, in which calendar instants and durations are counted. */
module Nanoseconds {
  const NANO_SECOND := 1_000_000_000
  const NANO_DAY := 86400 * NANO_SECOND
}
