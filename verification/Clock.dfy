/** Time as the collector counts it: an `Instant` is a number of nanoseconds since some fixed
    moment, a `Duration` is a number of nanoseconds. */
module Clock {
  const MILLI: nat := 1_000_000
  const SECOND: nat := 1_000_000_000
  const MINUTE: nat := 60 * SECOND

  /** `Duration::saturating_sub`, and `Instant::saturating_duration_since` as well. */
  function Minus(a: nat, b: nat): nat {
    if a >= b then a - b else 0
  }
}
