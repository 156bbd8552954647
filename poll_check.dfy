/**
 * The poll readiness check (poll-check.go): Start marks the check active and
 * loops, storing each probe result, until Stop clears the active flag. The
 * class gives the fields and the three operations; the state machine below it
 * describes how Stop, issued by another goroutine, interleaves with the loop.
 */
module Poll {
  import opened Wrappers

  class PollComponentCheck {
    const name: string
    const pollDelay: int
    var isReady: bool
    var isActive: bool

    /** As built by ReadyCheck.RegisterPollComponent: not ready and not active. */
    constructor (name: string, pollDelay: int)
      ensures this.name == name && this.pollDelay == pollDelay
      ensures !Ready() && !isActive
    {
      this.name := name;
      this.pollDelay := pollDelay;
      isReady := false;
      isActive := false;
    }

    /** The most recently stored probe result. */
    function Ready(): bool
      reads this
    {
      isReady
    }

    /** The statement Start runs before its loop: the check becomes active (the machine's StartCalled). */
    method Start()
      modifies this
      ensures isActive && Ready() == old(Ready())
      ensures Next(LoopState(old(isReady), old(isActive), NotRunning), StartCalled) == Some(LoopState(isReady, isActive, AtTest))
    {
      isActive := true;
    }

    /**
     * One pass of Start's loop, where `probe` is what the probe function
     * returns: the loop test, then (if still active) the stored result. In the
     * machine below this is the trace [LoopTest, Probe(probe)] from AtTest, or
     * [LoopTest] alone when the check is inactive; a Stop between the two
     * events is what the machine adds.
     */
    method Iterate(probe: bool) returns (probed: bool)
      modifies this
      ensures probed == old(isActive) && isActive == old(isActive)
      ensures Ready() == if probed then probe else old(Ready())
      ensures probed ==> Run(LoopState(old(isReady), old(isActive), AtTest), [LoopTest, Probe(probe)])
                         == Some(LoopState(isReady, isActive, AtTest))
      ensures !probed ==> Run(LoopState(old(isReady), old(isActive), AtTest), [LoopTest])
                          == Some(LoopState(isReady, isActive, NotRunning))
    {
      ghost var before := LoopState(isReady, isActive, AtTest);
      probed := isActive;
      if probed {
        isReady := probe;
        ActiveLoopProbes(before, probe);
      } else {
        assert [LoopTest][1..] == [];
        assert Run(before, [LoopTest]) == Run(before.(phase := NotRunning), []);
      }
    }

    /** Clears the active flag; readiness stays frozen at its last value (the machine's StopCalled, in any phase). */
    method Stop()
      modifies this
      ensures !isActive && Ready() == old(Ready())
      ensures forall phase: Phase :: Next(LoopState(old(isReady), old(isActive), phase), StopCalled)
                                     == Some(LoopState(isReady, isActive, phase))
    {
      isActive := false;
    }
  }

  /** Where the goroutine running Start is: not running, at the loop test, or past it and about to probe. */
  datatype Phase = NotRunning | AtTest | AtProbe

  datatype LoopState = LoopState(isReady: bool, isActive: bool, phase: Phase)

  /**
   * What can happen next: Start's goroutine begins, Stop is called from
   * elsewhere, the loop tests its flag, or the probe returns (and the loop
   * sleeps before its next test).
   */
  datatype Event = StartCalled | StopCalled | LoopTest | Probe(result: bool)

  const Initial: LoopState := LoopState(false, false, NotRunning)

  /** One event; None when it cannot happen in that state (a second loop is never started). */
  function Next(s: LoopState, e: Event): Option<LoopState>
  {
    match e
    case StartCalled => if s.phase == NotRunning then Some(LoopState(s.isReady, true, AtTest)) else None
    case StopCalled => Some(s.(isActive := false))
    case LoopTest => if s.phase == AtTest then Some(s.(phase := if s.isActive then AtProbe else NotRunning)) else None
    case Probe(result) => if s.phase == AtProbe then Some(s.(isReady := result, phase := AtTest)) else None
  }

  /** The state after a whole trace of events, or None if some event could not happen. */
  function Run(s: LoopState, trace: seq<Event>): Option<LoopState>
    decreases |trace|
  {
    if trace == [] then Some(s)
    else match Next(s, trace[0])
      case None => None
      case Some(s') => Run(s', trace[1..])
  }

  /** The number of probes in a trace. */
  function Probes(trace: seq<Event>): nat
    decreases |trace|
  {
    if trace == [] then 0 else (if trace[0].Probe? then 1 else 0) + Probes(trace[1..])
  }

  /** The result of the last probe in a trace, or `before` if there is none. */
  function LastProbe(trace: seq<Event>, before: bool): bool
    decreases |trace|
  {
    if trace == [] then before
    else LastProbe(trace[1..], if trace[0].Probe? then trace[0].result else before)
  }

  /** Ready reports the most recent probe result, and the initial false before any probe. */
  lemma {:induction false} ReadyIsLastProbe(s: LoopState, trace: seq<Event>)
    requires Run(s, trace).Some?
    ensures Run(s, trace).value.isReady == LastProbe(trace, s.isReady)
    decreases |trace|
  {
    if trace != [] {
      ReadyIsLastProbe(Next(s, trace[0]).value, trace[1..]);
    }
  }

  /** An inactive loop that is not past its test never probes again unless restarted. */
  lemma {:induction false} InactiveLoopProbes(s: LoopState, trace: seq<Event>)
    requires !s.isActive
    requires StartCalled !in trace
    requires Run(s, trace).Some?
    ensures Probes(trace) <= if s.phase == AtProbe then 1 else 0
    decreases |trace|
  {
    if trace != [] {
      assert StartCalled !in trace[1..] by {
        assert forall e :: e in trace[1..] ==> e in trace;
      }
      InactiveLoopProbes(Next(s, trace[0]).value, trace[1..]);
    }
  }

  /** After Stop, at most one further probe happens: the one already past the loop test. */
  lemma AtMostOneProbeAfterStop(s: LoopState, trace: seq<Event>)
    requires StartCalled !in trace
    requires Run(s, [StopCalled] + trace).Some?
    ensures Probes(trace) <= 1
    ensures s.phase != AtProbe ==> Probes(trace) == 0
  {
    assert ([StopCalled] + trace)[1..] == trace;
    InactiveLoopProbes(s.(isActive := false), trace);
  }

  /** Stop is idempotent and leaves readiness frozen. */
  lemma StopIdempotent(s: LoopState)
    ensures Next(s, StopCalled).value.isReady == s.isReady
    ensures Next(Next(s, StopCalled).value, StopCalled) == Next(s, StopCalled)
  {
  }

  /** Before the first probe the check is not ready (poll-check_test.go). */
  lemma NotReadyBeforeFirstProbe(trace: seq<Event>)
    requires Run(Initial, trace).Some?
    requires Probes(trace) == 0
    ensures !Run(Initial, trace).value.isReady
  {
    ReadyIsLastProbe(Initial, trace);
    NoProbeKeepsDefault(trace, false);
  }

  /** A trace without probes leaves LastProbe at its default. */
  lemma {:induction false} NoProbeKeepsDefault(trace: seq<Event>, before: bool)
    requires Probes(trace) == 0
    ensures LastProbe(trace, before) == before
    decreases |trace|
  {
    if trace != [] {
      NoProbeKeepsDefault(trace[1..], before);
    }
  }

  /** While active, every pass of the loop probes: Start, then test and probe, repeatedly. */
  lemma ActiveLoopProbes(s: LoopState, result: bool)
    requires s.isActive && s.phase == AtTest
    ensures Run(s, [LoopTest, Probe(result)]) == Some(s.(isReady := result))
  {
    var probing := s.(phase := AtProbe);
    assert [LoopTest, Probe(result)][1..] == [Probe(result)];
    assert Run(s, [LoopTest, Probe(result)]) == Run(probing, [Probe(result)]);
    assert [Probe(result)][1..] == [];
    assert Run(probing, [Probe(result)]) == Run(s.(isReady := result), []);
  }
}
