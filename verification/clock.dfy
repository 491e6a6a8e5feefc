/** Time in integer milliseconds since the epoch, and the 24-hour claim cycle
    the dashboard components share. */
module Clock {

  const SECOND_MS: int := 1000
  const MINUTE_MS: int := 60 * SECOND_MS
  const HOUR_MS: int := 60 * MINUTE_MS
  /** One claim cycle: 24 hours = 86,400,000 ms. */
  const DAY_MS: int := 24 * HOUR_MS

  /** `new Date(t).toISOString().split('T')[0]` read back with `new Date(..)`:
      the instant t truncated to midnight UTC of its calendar day. */
  function DayStart(t: int): (d: int)
    ensures d <= t < d + DAY_MS
    ensures d % DAY_MS == 0
  {
    t - t % DAY_MS
  }
}
