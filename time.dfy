/** Go's time.Time and time.Duration, as integers of nanoseconds. */
module Time {

  /** An instant, in nanoseconds since the Unix epoch. */
  type Instant = int

  /** A time.Duration: a signed count of nanoseconds. */
  type Duration = int

  const Second: Duration := 1_000_000_000
  const Hour: Duration := 3600 * Second

  /** time.Time.Unix: whole seconds since the epoch, rounded toward the past. */
  function Unix(t: Instant): (s: int)
    ensures s * Second <= t < s * Second + Second
  {
    t / Second
  }

  /** time.Time.Truncate(time.Second): the last whole second at or before t. */
  function TruncateToSecond(t: Instant): (r: Instant)
    ensures r <= t < r + Second
    ensures r % Second == 0
  {
    t - t % Second
  }
}
