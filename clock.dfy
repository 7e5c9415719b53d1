/**
 * The countdown both game versions compute on every animation frame:
 * `Math.max(0, 20 - (Date.now() - startTime) / 1000)`, with the clock
 * passed in as integer milliseconds.
 */
module Clock {

  /** Length of one session, in seconds. */
  const SessionSeconds: real := 20.0

  /** Seconds since `startTime`, both in milliseconds. */
  function Elapsed(startTime: int, now: int): real
  {
    (now - startTime) as real / 1000.0
  }

  /** Seconds left in a session started at `startTime`: never negative, zero exactly from the 20 000th millisecond on. */
  function Remaining(startTime: int, now: int): (left: real)
    ensures left >= 0.0
    ensures left == 0.0 <==> now - startTime >= 20000
    ensures now >= startTime ==> left <= SessionSeconds
    ensures left > 0.0 ==> left + Elapsed(startTime, now) == SessionSeconds
  {
    var rest := SessionSeconds - Elapsed(startTime, now);
    if rest > 0.0 then rest else 0.0
  }

  /** Later readings of the clock never leave more time. */
  lemma RemainingNonIncreasing(startTime: int, earlier: int, later: int)
    requires earlier <= later
    ensures Remaining(startTime, later) <= Remaining(startTime, earlier)
  {
    assert Elapsed(startTime, earlier) <= Elapsed(startTime, later);
  }

  /** `Math.ceil`: the least integer not below `x`. */
  function Ceil(x: real): (c: int)
    ensures x <= c as real < x + 1.0
  {
    -((-x).Floor)
  }
}
