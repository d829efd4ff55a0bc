/** The monotone clock and the cross-device throttle of src/throttle.rs. */
module Throttling {
  import opened Effects

  /** Nanoseconds on a monotone clock. */
  type Instant = nat

  const MIN_INTERVAL_MS: nat := 10
  const MIN_INTERVAL: nat := MIN_INTERVAL_MS * 1_000_000

  /** `Instant::elapsed`, which saturates at zero. */
  function Elapsed(since: Instant, now: Instant): nat {
    if since <= now then now - since else 0
  }

  predicate MayEmit(lastHaptic: Option<Instant>, now: Instant) {
    lastHaptic.None? || Elapsed(lastHaptic.value, now) >= MIN_INTERVAL
  }

  /** The environment's clock: every reading is at least the one before. */
  class Clock {
    var now: Instant

    constructor (start: Instant)
      ensures now == start
    {
      now := start;
    }

    method Read() returns (t: Instant)
      modifies this
      ensures t == now && old(now) <= now
    {
      var passed: nat :| passed >= 0;
      now := now + passed;
      t := now;
    }
  }

  class Throttle {
    var lastHaptic: Option<Instant>

    constructor ()
      ensures lastHaptic == None
    {
      lastHaptic := None;
    }

    method ShouldEmitHaptic(clock: Clock) returns (ok: bool)
      modifies clock
      ensures old(clock.now) <= clock.now
      ensures ok == MayEmit(lastHaptic, clock.now)
    {
      match lastHaptic
      case None =>
        ok := true;
      case Some(t) =>
        var now := clock.Read();
        ok := Elapsed(t, now) >= MIN_INTERVAL;
    }

    method RecordHapticEmitted(clock: Clock)
      modifies this, clock
      ensures old(clock.now) <= clock.now
      ensures lastHaptic == Some(clock.now)
    {
      var now := clock.Read();
      lastHaptic := Some(now);
    }
  }
}
