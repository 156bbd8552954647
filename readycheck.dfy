/**
 * The readiness registry (readycheck.go): an append-only, ordered list of
 * checks of any variant, folded into one boolean and one name-to-readiness map.
 */
module Readiness {
  import Push
  import Pulse
  import Poll

  /** Any other implementation of ComponentCheck: a name and a readiness that its owner updates. */
  class CustomCheck {
    const name: string
    var ready: bool

    constructor (name: string, ready: bool)
      ensures this.name == name && this.ready == ready
    {
      this.name := name;
      this.ready := ready;
    }
  }

  /** A registered ComponentCheck, tagged by its concrete type. */
  datatype Check =
    | PollComponent(poll: Poll.PollComponentCheck)
    | PushComponent(push: Push.PushComponentCheck)
    | PulseComponent(pulse: Pulse.PulseComponentCheck)
    | CustomComponent(custom: CustomCheck)
  {
    /** The object behind the interface value. */
    function Target(): object
    {
      match this
      case PollComponent(c) => c
      case PushComponent(c) => c
      case PulseComponent(c) => c
      case CustomComponent(c) => c
    }

    /** ComponentCheck.Name. */
    function Name(): string
    {
      match this
      case PollComponent(c) => c.name
      case PushComponent(c) => c.name
      case PulseComponent(c) => c.name
      case CustomComponent(c) => c.name
    }

    /** ComponentCheck.Ready, with the clock reading `now` that only a pulse check consults. */
    function Ready(now: int): bool
      reads Target()
    {
      match this
      case PollComponent(c) => c.Ready()
      case PushComponent(c) => c.Ready()
      case PulseComponent(c) => c.Ready(now)
      case CustomComponent(c) => c.ready
    }
  }

  /** What one check reports at one instant. */
  datatype Status = Status(name: string, ready: bool)

  /** The conjunction Ready computes. */
  predicate AllReady(statuses: seq<Status>)
  {
    forall i :: 0 <= i < |statuses| ==> statuses[i].ready
  }

  /** The map Explain builds: one write per check in registration order, so a later duplicate name wins. */
  function ExplainOf(statuses: seq<Status>): map<string, bool>
    decreases |statuses|
  {
    if statuses == [] then map[]
    else
      var last := statuses[|statuses| - 1];
      ExplainOf(statuses[..|statuses| - 1])[last.name := last.ready]
  }

  /** Explain has exactly one key per distinct registered name. */
  lemma {:induction false} ExplainKeys(statuses: seq<Status>)
    ensures ExplainOf(statuses).Keys == set i | 0 <= i < |statuses| :: statuses[i].name
    decreases |statuses|
  {
    if statuses != [] {
      var init := statuses[..|statuses| - 1];
      ExplainKeys(init);
      var names := set i | 0 <= i < |statuses| :: statuses[i].name;
      var initNames := set i | 0 <= i < |init| :: init[i].name;
      assert names == initNames + {statuses[|statuses| - 1].name} by {
        forall name | name in names ensures name in initNames + {statuses[|statuses| - 1].name} {
          var i :| 0 <= i < |statuses| && statuses[i].name == name;
          if i < |init| {
            assert init[i] == statuses[i];
          }
        }
        forall name | name in initNames ensures name in names {
          var i :| 0 <= i < |init| && init[i].name == name;
          assert statuses[i] == init[i];
        }
      }
    }
  }

  /** Each value is the readiness of the last check registered under that name. */
  lemma {:induction false} ExplainLastWins(statuses: seq<Status>, i: int)
    requires 0 <= i < |statuses|
    requires forall j :: i < j < |statuses| ==> statuses[j].name != statuses[i].name
    ensures statuses[i].name in ExplainOf(statuses)
    ensures ExplainOf(statuses)[statuses[i].name] == statuses[i].ready
    decreases |statuses|
  {
    if i < |statuses| - 1 {
      var init := statuses[..|statuses| - 1];
      assert init[i] == statuses[i];
      forall j | i < j < |init| ensures init[j].name != init[i].name {
        assert init[j] == statuses[j];
      }
      ExplainLastWins(init, i);
    }
  }

  /** When every check is ready, Explain shows every name as ready. */
  lemma {:induction false} ReadyExplainsReady(statuses: seq<Status>)
    requires AllReady(statuses)
    ensures forall name :: name in ExplainOf(statuses) ==> ExplainOf(statuses)[name]
    decreases |statuses|
  {
    if statuses != [] {
      var init := statuses[..|statuses| - 1];
      assert AllReady(init) by {
        forall i | 0 <= i < |init| ensures init[i].ready {
          assert init[i] == statuses[i];
        }
      }
      ReadyExplainsReady(init);
    }
  }

  /** With distinct names the converse holds too: Explain is all-ready exactly when Ready is. */
  lemma DistinctNamesExplainReady(statuses: seq<Status>)
    requires forall i, j :: 0 <= i < j < |statuses| ==> statuses[i].name != statuses[j].name
    ensures AllReady(statuses) <==> forall name :: name in ExplainOf(statuses) ==> ExplainOf(statuses)[name]
  {
    if AllReady(statuses) {
      ReadyExplainsReady(statuses);
    } else {
      var i :| 0 <= i < |statuses| && !statuses[i].ready;
      ExplainLastWins(statuses, i);
    }
  }

  /**
   * With a repeated name, Explain can show every name as ready while Ready is
   * false: the earlier not-ready check is overwritten by a later ready one.
   */
  lemma ShadowedNameHidesNotReady()
    ensures var statuses := [Status("db", false), Status("db", true)];
            !AllReady(statuses) && ExplainOf(statuses) == map["db" := true]
  {
    var statuses := [Status("db", false), Status("db", true)];
    assert !statuses[0].ready;
    assert statuses[..1] == [Status("db", false)];
    assert statuses[..1][..0] == [];
    assert ExplainOf(statuses[..1]) == map["db" := false];
  }

  class ReadyCheck {
    var components: seq<Check>

    /** NewReadyCheck: an empty registry. */
    constructor ()
      ensures components == []
    {
      components := [];
    }

    /** The objects behind the registered checks. */
    ghost function Footprint(): set<object>
      reads this
    {
      set c | c in components :: c.Target()
    }

    /** What each registered check reports at `now`, in registration order. */
    ghost function Statuses(now: int): (statuses: seq<Status>)
      reads this, Footprint()
    {
      seq(|components|, i requires 0 <= i < |components| reads this, Footprint() =>
        Status(components[i].Name(), components[i].Ready(now)))
    }

    /** Appends the check; the name argument is not stored (Explain uses the check's own Name). */
    method RegisterComponent(name: string, component: Check)
      modifies this
      ensures components == old(components) + [component]
    {
      components := components + [component];
    }

    method RegisterPollComponent(name: string, pollDelay: int) returns (check: Poll.PollComponentCheck)
      modifies this
      ensures fresh(check) && check.name == name && check.pollDelay == pollDelay
      ensures !check.Ready() && !check.isActive
      ensures components == old(components) + [PollComponent(check)]
    {
      check := new Poll.PollComponentCheck(name, pollDelay);
      RegisterComponent(name, PollComponent(check));
    }

    method RegisterPushComponent(name: string) returns (check: Push.PushComponentCheck)
      modifies this
      ensures fresh(check) && check.name == name && !check.Ready()
      ensures components == old(components) + [PushComponent(check)]
    {
      check := new Push.PushComponentCheck(name);
      RegisterComponent(name, PushComponent(check));
    }

    method RegisterPulseComponent(name: string, expiration: int) returns (check: Pulse.PulseComponentCheck)
      modifies this
      ensures fresh(check) && check.name == name && check.expiration == expiration
      ensures check.lastPulse.None? && forall now :: !check.Ready(now)
      ensures components == old(components) + [PulseComponent(check)]
    {
      check := new Pulse.PulseComponentCheck(name, expiration);
      RegisterComponent(name, PulseComponent(check));
    }

    /** True iff every registered check is ready; stops at the first one that is not. */
    method Ready(now: int) returns (r: bool)
      ensures r == AllReady(Statuses(now))
    {
      var i := 0;
      while i < |components|
        invariant 0 <= i <= |components|
        invariant forall j :: 0 <= j < i ==> components[j].Ready(now)
      {
        if !components[i].Ready(now) {
          assert Statuses(now)[i] == Status(components[i].Name(), components[i].Ready(now));
          return false;
        }
        i := i + 1;
      }
      assert forall j :: 0 <= j < |components| ==>
        Statuses(now)[j] == Status(components[j].Name(), components[j].Ready(now));
      return true;
    }

    /** Evaluates every check, writing its readiness under its name. */
    method Explain(now: int) returns (explanation: map<string, bool>)
      ensures explanation == ExplainOf(Statuses(now))
    {
      explanation := map[];
      var i := 0;
      while i < |components|
        invariant 0 <= i <= |components|
        invariant explanation == ExplainOf(Statuses(now)[..i])
      {
        explanation := explanation[components[i].Name() := components[i].Ready(now)];
        assert Statuses(now)[..i + 1][..i] == Statuses(now)[..i];
        i := i + 1;
      }
      assert Statuses(now)[..i] == Statuses(now);
    }

    /** The poll checks among the registered ones. */
    ghost function PollChecks(): set<Poll.PollComponentCheck>
      reads this
    {
      set c | c in components && c.PollComponent? :: c.poll
    }

    /** Starts every poll check (the statement its goroutine runs before looping); other checks are untouched. */
    method StartPolling()
      modifies PollChecks()
      ensures forall c :: c in PollChecks() ==> c.isActive && c.Ready() == old(c.Ready())
    {
      for i := 0 to |components|
        invariant forall j :: 0 <= j < i && components[j].PollComponent? ==> components[j].poll.isActive
        invariant forall c :: c in PollChecks() ==> c.Ready() == old(c.Ready())
      {
        if components[i].PollComponent? {
          components[i].poll.Start();
        }
      }
    }

    /** Stops every poll check; other checks are untouched. */
    method StopPolling()
      modifies PollChecks()
      ensures forall c :: c in PollChecks() ==> !c.isActive && c.Ready() == old(c.Ready())
    {
      for i := 0 to |components|
        invariant forall j :: 0 <= j < i && components[j].PollComponent? ==> !components[j].poll.isActive
        invariant forall c :: c in PollChecks() ==> c.Ready() == old(c.Ready())
      {
        if components[i].PollComponent? {
          components[i].poll.Stop();
        }
      }
    }
  }

  /** The not-ready test of readycheck_test.go, with each probe's first result delivered by Iterate. */
  method RegistryScenario()
  {
    var registry := new ReadyCheck();
    var ready := registry.Ready(0);
    assert ready;
    var first := registry.RegisterPollComponent("component-1", 25);
    var second := registry.RegisterPushComponent("component-2");
    second.SetReady(false);
    var third := registry.RegisterPollComponent("component-3", 25);
    assert registry.components == [PollComponent(first), PushComponent(second), PollComponent(third)];
    registry.StartPolling();
    var _ := first.Iterate(false);
    var _ := third.Iterate(true);
    ready := registry.Ready(0);
    assert !registry.components[0].Ready(0);
    assert !registry.Statuses(0)[0].ready;
    assert !ready;
  }
}
