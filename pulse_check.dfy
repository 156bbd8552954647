/**
 * The pulse readiness check (pulse-check.go): ready while the last recorded
 * heartbeat is at most `expiration` old. Instants and durations are integer
 * nanoseconds; the wall clock is the parameter `now`.
 */
module Pulse {
  import opened Wrappers

  /** The readiness of a check whose last pulse (if any) is `lastPulse`, read at `now`. */
  function PulseReady(lastPulse: Option<int>, expiration: int, now: int): bool
  {
    match lastPulse
    case None => false
    case Some(pulse) => now - pulse <= expiration
  }

  /** Without a recorded pulse the check is never ready. */
  lemma NeverPulsedNotReady(expiration: int, now: int)
    ensures !PulseReady(None, expiration, now)
  {
  }

  /** After a pulse at `pulse`, the check is ready exactly up to and including `pulse + expiration`. */
  lemma PulseWindow(pulse: int, expiration: int, now: int)
    ensures PulseReady(Some(pulse), expiration, now) <==> now <= pulse + expiration
  {
  }

  /** Readiness decays: once not ready, it stays so at every later instant until a new pulse. */
  lemma PulseDecays(lastPulse: Option<int>, expiration: int, now: int, later: int)
    requires now <= later
    requires !PulseReady(lastPulse, expiration, now)
    ensures !PulseReady(lastPulse, expiration, later)
  {
  }

  /** With a zero expiration, a pulse counts only at the very nanosecond it was recorded. */
  lemma ZeroExpiration(pulse: int, now: int)
    requires pulse <= now
    ensures PulseReady(Some(pulse), 0, now) <==> now == pulse
  {
  }

  class PulseComponentCheck {
    const name: string
    const expiration: int
    var lastPulse: Option<int>

    /** As built by ReadyCheck.RegisterPulseComponent: no pulse recorded yet. */
    constructor (name: string, expiration: int)
      ensures this.name == name && this.expiration == expiration && lastPulse == None
      ensures forall now :: !Ready(now)
    {
      this.name := name;
      this.expiration := expiration;
      lastPulse := None;
    }

    /** Ready, evaluated at the instant `now`; it reads and changes nothing else. */
    function Ready(now: int): bool
      reads this
    {
      PulseReady(lastPulse, expiration, now)
    }

    /**
     * Records a pulse at `now`, replacing any earlier one: from then on the
     * check is ready exactly until `now + expiration`.
     */
    method RecordPulse(now: int)
      modifies this
      ensures lastPulse == Some(now)
      ensures forall at :: Ready(at) <==> at <= now + expiration
    {
      lastPulse := Some(now);
    }
  }

  /** The tests of pulse-check_test.go on an explicit clock. */
  method PulseScenario()
  {
    var second := 1_000_000_000;
    var check := new PulseComponentCheck("pulse", 2 * second);
    assert !check.Ready(0);
    check.RecordPulse(10 * second);
    assert check.Ready(10 * second + second / 10);
    var short := new PulseComponentCheck("pulse", second / 20);
    short.RecordPulse(10 * second);
    assert !short.Ready(10 * second + second / 10);
  }
}
