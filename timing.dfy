/**
 * Timing configuration of the checker.
 *
 * Time is a natural number of milliseconds; the value 0 plays the role of
 * Go's zero `time.Time` (the value `IsZero` recognises). A duration such as
 * a downtime is the difference of two times and may be negative.
 */
module Timing {

  type Millis = nat

  /** Interval between two heartbeat writes of the server. */
  const KeepaliveInterval: Millis := 100

  /** The read-timeout factor 1.5, written as the fraction 3/2. */
  const ReadTimeoutFactorNum: nat := 3
  const ReadTimeoutFactorDen: nat := 2

  /** Read deadline offset: KeepaliveInterval scaled by the read-timeout factor. */
  const ReadTimeout: Millis := KeepaliveInterval * ReadTimeoutFactorNum / ReadTimeoutFactorDen

  predicate IsZero(t: Millis) {
    t == 0
  }

  /** `time.Since(t)` evaluated when the clock reads `now`. */
  function Since(now: Millis, t: Millis): int {
    now - t
  }

  /**
   * The deadline set before every read. It is 150 ms after the moment it is
   * set: past the next heartbeat, but before the one after it, so a single
   * late heartbeat still arrives before the deadline.
   */
  function ReadDeadline(now: Millis): (d: Millis)
    ensures d == now + 150
    ensures now + KeepaliveInterval < d < now + 2 * KeepaliveInterval
  {
    now + ReadTimeout
  }
}
