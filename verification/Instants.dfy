/**
 Instants and durations in whole microseconds.

 Instant 0 is 0001-01-01T00:00 UTC, which is a Monday, so whole weeks from there
 are Monday-based calendar weeks.
 */
module Instants {
  const SECOND := 1_000_000
  const MINUTE := 60 * SECOND
  const DAY := 86_400 * SECOND
  const WEEK := 7 * DAY

  /** Whole days in a duration, negative in the past. */
  function SignedDays(delta: int): int {
    delta / DAY
  }

  /** Whole days elapsed, so a just-now event is 0 rather than -1. */
  function WholeDays(delta: int): int {
    if SignedDays(delta) < 0 then 0 else SignedDays(delta)
  }
}
