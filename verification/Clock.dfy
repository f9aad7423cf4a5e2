/** The unit of Go's time.Duration. */
module Clock {
  const NANOSECONDS := 1000000000
}
