/**
 * The shutdown coordinator (graceful-shutdown.go): a registry of uniquely
 * named components, a done-signal, a disposed flag, and the bounded collection
 * loop. Durations and instants are integer nanoseconds.
 */
module Shutdown {
  import opened Wrappers
  import opened ShutdownErrors
  import opened ShutdownCollection

  const Millisecond: int := 1_000_000
  const Second: int := 1_000 * Millisecond

  /** An OS signal by its POSIX number. */
  datatype Signal = Signal(number: int)

  const Interrupt: Signal := Signal(2)
  const Terminate: Signal := Signal(15)

  const DefaultTimeout: int := 5 * Second
  const DefaultPollDuration: int := 100 * Millisecond
  const DefaultSignals: seq<Signal> := [Interrupt, Terminate]

  /** GracefulShutdownOptions; a zero field means "use the default". */
  datatype Options = Options(timeout: int, pollDuration: int, signals: seq<Signal>)

  /** The options NewGracefulShutdown passes explicitly. */
  const DefaultOptions: Options := Options(DefaultTimeout, DefaultPollDuration, DefaultSignals)

  /** The defaulting done by NewGracefulShutdownWithOptions. */
  function WithDefaults(options: Options): (r: Options)
    ensures options.timeout == 0 ==> r.timeout == DefaultTimeout
    ensures options.timeout != 0 ==> r.timeout == options.timeout
    ensures options.pollDuration == 0 ==> r.pollDuration == DefaultPollDuration
    ensures options.pollDuration != 0 ==> r.pollDuration == options.pollDuration
    ensures |options.signals| == 0 ==> r.signals == DefaultSignals
    ensures |options.signals| != 0 ==> r.signals == options.signals
  {
    Options(
      if options.timeout == 0 then DefaultTimeout else options.timeout,
      if options.pollDuration == 0 then DefaultPollDuration else options.pollDuration,
      if |options.signals| == 0 then DefaultSignals else options.signals)
  }

  /** Defaulted options have no zero field left, so defaulting them again changes nothing. */
  lemma WithDefaultsIdempotent(options: Options)
    ensures WithDefaults(options).timeout != 0 && WithDefaults(options).pollDuration != 0
    ensures |WithDefaults(options).signals| > 0
    ensures WithDefaults(WithDefaults(options)) == WithDefaults(options)
  {
  }

  /** NewGracefulShutdown is NewGracefulShutdownWithOptions on the zero options. */
  lemma DefaultsAgree()
    ensures WithDefaults(DefaultOptions) == DefaultOptions
    ensures WithDefaults(Options(0, 0, [])) == DefaultOptions
  {
  }

  class GracefulShutdown {
    const options: Options
    /** The registered component names; each one's channel is read through the rounds of Shutdown. */
    var components: set<string>
    /** Whether the application context is done (shutdownFunc has been called). */
    var cancelled: bool
    var disposed: bool

    /** NewGracefulShutdownWithOptions. */
    constructor WithOptions(options: Options)
      ensures this.options == WithDefaults(options)
      ensures components == {} && !cancelled && !disposed
    {
      this.options := WithDefaults(options);
      components := {};
      cancelled := false;
      disposed := false;
    }

    /** NewGracefulShutdown. */
    constructor Default()
      ensures options == DefaultOptions
      ensures components == {} && !cancelled && !disposed
    {
      options := WithDefaults(DefaultOptions);
      components := {};
      cancelled := false;
      disposed := false;
    }

    /** Every registered name exactly once, in an unspecified order (Go map iteration). */
    method RegisteredComponents() returns (names: seq<string>)
      ensures |names| == |components|
      ensures forall name :: name in names <==> name in components
      ensures forall i, j :: 0 <= i < j < |names| ==> names[i] != names[j]
    {
      var slots := new string[|components|];
      var rest := components;
      var i := 0;
      while rest != {}
        invariant rest <= components
        invariant i + |rest| == |components|
        invariant forall k :: 0 <= k < i ==> slots[k] in components && slots[k] !in rest
        invariant forall k, l :: 0 <= k < l < i ==> slots[k] != slots[l]
        invariant forall name :: name in components ==> name in rest || name in slots[..i]
        decreases rest
      {
        var name :| name in rest;
        slots[i] := name;
        assert slots[..i + 1] == slots[..i] + [name];
        rest := rest - {name};
        i := i + 1;
      }
      names := slots[..];
    }

    /** Adds a fresh name; a name already registered is refused and nothing changes. */
    method RegisterComponent(name: string) returns (err: Option<Error>)
      modifies this`components
      ensures old(name in components) ==> err == Some(ComponentAlreadyRegistered) && components == old(components)
      ensures old(name !in components) ==> err == None && components == old(components) + {name}
    {
      if name in components {
        return Some(ComponentAlreadyRegistered);
      }
      components := components + {name};
      return None;
    }

    /**
     * Registers like RegisterComponent; the goroutine that forwards the shutdown
     * function's result is the component's arrival in a later round.
     */
    method RegisterComponentWithFn(name: string) returns (err: Option<Error>)
      modifies this`components
      ensures old(name in components) ==> err == Some(ComponentAlreadyRegistered) && components == old(components)
      ensures old(name !in components) ==> err == None && components == old(components) + {name}
    {
      err := RegisterComponent(name);
    }

    /**
     * Cancels the application context and runs the collection loop against a
     * deadline `options.timeout` after `now`.
     */
    method Shutdown(now: int, rounds: seq<Round>) returns (err: Option<Error>)
      requires !disposed ==> Expires(rounds, now + options.timeout)
      modifies this`cancelled, this`disposed
      ensures cancelled && disposed
      ensures err == if old(disposed) then Some(AlreadyShutdown)
                     else AsError(Collect(components, map[], now + options.timeout, rounds))
    {
      cancelled := true;
      err := WaitForComponents(now + options.timeout, rounds);
    }

    /**
     * WaitForShutdown once one of `options.signals` has been delivered at `now`
     * (the mutual exclusion between waiters is not modelled).
     */
    method WaitForShutdown(now: int, rounds: seq<Round>) returns (err: Option<Error>)
      requires !disposed ==> Expires(rounds, now + options.timeout)
      modifies this`cancelled, this`disposed
      ensures disposed
      ensures old(disposed) ==> err == Some(AlreadyShutdown) && cancelled == old(cancelled)
      ensures !old(disposed) ==> cancelled && err == AsError(Collect(components, map[], now + options.timeout, rounds))
    {
      if disposed {
        return Some(AlreadyShutdown);
      }
      err := Shutdown(now, rounds);
    }

    /** The collection loop; on every exit path the coordinator ends disposed. */
    method WaitForComponents(deadline: int, rounds: seq<Round>) returns (err: Option<Error>)
      requires !disposed ==> Expires(rounds, deadline)
      modifies this`disposed
      ensures disposed
      ensures err == if old(disposed) then Some(AlreadyShutdown)
                     else AsError(Collect(components, map[], deadline, rounds))
    {
      if disposed {
        return Some(AlreadyShutdown);
      }
      var componentErrors: map<string, Error> := map[];
      var remaining := components;
      var k := 0;
      while true
        invariant 0 <= k < |rounds| && Expires(rounds[k..], deadline)
        invariant Collect(remaining, componentErrors, deadline, rounds[k..]) == Collect(components, map[], deadline, rounds)
        decreases |rounds| - k
      {
        var round := rounds[k];
        if round.now >= deadline {
          componentErrors := StampTimeouts(remaining, componentErrors);
          disposed := true;
          return Some(Aggregate(ShutdownError(componentErrors)));
        }
        var future;
        future, componentErrors := ReceiveRound(remaining, componentErrors, round.arrivals);
        if future == {} {
          disposed := true;
          if componentErrors == map[] {
            return None;
          }
          return Some(Aggregate(ShutdownError(componentErrors)));
        }
        assert rounds[k..][1..] == rounds[k + 1..];
        remaining := future;
        k := k + 1;
      }
    }
  }

  /** The timeout pass of the loop: stamps every remaining component, one at a time. */
  method StampTimeouts(remaining: set<string>, errs: map<string, Error>) returns (stamped: map<string, Error>)
    ensures stamped == TimedOut(remaining, errs)
  {
    stamped := errs;
    var pending := remaining;
    while pending != {}
      invariant pending <= remaining
      invariant stamped == errs + map name | name in remaining - pending :: ShutdownTimeout
      decreases pending
    {
      var name :| name in pending;
      stamped := stamped[name := ShutdownTimeout];
      pending := pending - {name};
    }
  }

  /**
   * The receive pass of the loop: a non-blocking receive on each remaining
   * component's channel, keeping those with nothing to receive.
   */
  method ReceiveRound(remaining: set<string>, errs: map<string, Error>, arrivals: map<string, Option<Error>>)
    returns (future: set<string>, recorded: map<string, Error>)
    ensures (future, recorded) == Drain(remaining, errs, arrivals)
  {
    future, recorded := {}, errs;
    var pending := remaining;
    while pending != {}
      invariant pending <= remaining
      invariant future == (remaining - pending) - arrivals.Keys
      invariant recorded == errs + map name | name in remaining - pending && name in arrivals &&
                                              arrivals[name].Some? :: arrivals[name].value
      decreases pending
    {
      var name :| name in pending;
      if name in arrivals {
        var received := arrivals[name];
        if received.Some? {
          recorded := recorded[name := received.value];
        }
      } else {
        future := future + {name};
      }
      pending := pending - {name};
    }
    assert remaining - pending == remaining;
  }

  /** The all-success test of graceful-shutdown_test.go, then a second Shutdown. */
  method AllSuccessScenario()
  {
    var a, b := "ComponentA", "ComponentB";
    assert a[9] != b[9];
    var gs := new GracefulShutdown.Default();
    var _ := gs.RegisterComponentWithFn(a);
    var _ := gs.RegisterComponentWithFn(b);
    var again := gs.RegisterComponent(a);
    assert again == Some(ComponentAlreadyRegistered) && gs.components == {a, b};
    var rounds := [Round(0, map[]), Round(100 * Millisecond, map[a := None]),
                   Round(500 * Millisecond, map[b := None]), Round(5 * Second, map[])];
    assert Drain({a, b}, map[], map[]).0 == {a, b} && Drain({a, b}, map[], map[]).1 == map[];
    assert Drain({a, b}, map[], map[a := None]).0 == {b};
    assert Drain({a, b}, map[], map[a := None]).1.Keys == {};
    assert Drain({b}, map[], map[b := None]).0 == {};
    assert Drain({b}, map[], map[b := None]).1.Keys == {};
    assert Collect({b}, map[], 5 * Second, rounds[2..]) == None;
    assert Collect({a, b}, map[], 5 * Second, rounds[1..]) == None;
    var err := gs.Shutdown(0, rounds);
    assert err == None;
    err := gs.Shutdown(6 * Second, []);
    assert err == Some(AlreadyShutdown);
  }

  /** The failure test of graceful-shutdown_test.go: the aggregate holds exactly B's error. */
  method SomeFailureScenario()
  {
    var a, b := "ComponentA", "ComponentB";
    assert a[9] != b[9];
    var failure := Custom("test error");
    var gs := new GracefulShutdown.Default();
    var _ := gs.RegisterComponentWithFn(a);
    var _ := gs.RegisterComponentWithFn(b);
    var rounds := [Round(0, map[b := Some(failure)]), Round(100 * Millisecond, map[a := None]), Round(5 * Second, map[])];
    assert Drain({a, b}, map[], rounds[0].arrivals).0 == {a};
    assert Drain({a, b}, map[], rounds[0].arrivals).1.Keys == {b};
    assert Drain({a, b}, map[], rounds[0].arrivals).1 == map[b := failure];
    assert Drain({a}, map[b := failure], rounds[1].arrivals).0 == {};
    assert Drain({a}, map[b := failure], rounds[1].arrivals).1 == map[b := failure];
    assert rounds[1..][0] == rounds[1];
    assert Collect({a}, map[b := failure], 5 * Second, rounds[1..]) == Some(ShutdownError(map[b := failure]));
    assert Collect({a, b}, map[], 5 * Second, rounds) == Some(ShutdownError(map[b := failure]));
    assert gs.components == {a, b} && gs.options.timeout == 5 * Second;
    var err := gs.Shutdown(0, rounds);
    assert err == Some(Aggregate(ShutdownError(map[b := failure])));
  }

  /** The timeout test of graceful-shutdown_test.go: B is stamped with the timeout, A is absent. */
  method TimeoutScenario()
  {
    var a, b := "ComponentA", "ComponentB";
    assert a[9] != b[9];
    var gs := new GracefulShutdown.WithOptions(Options(250 * Millisecond, 50 * Millisecond, []));
    var _ := gs.RegisterComponentWithFn(a);
    var _ := gs.RegisterComponentWithFn(b);
    var rounds := [Round(0, map[]), Round(100 * Millisecond, map[a := None]), Round(250 * Millisecond, map[])];
    assert Drain({a, b}, map[], map[]).0 == {a, b} && Drain({a, b}, map[], map[]).1 == map[];
    assert Drain({a, b}, map[], map[a := None]).0 == {b};
    assert Drain({a, b}, map[], map[a := None]).1 == map[];
    assert TimedOut({b}, map[]) == map[b := ShutdownTimeout];
    assert Collect({b}, map[], 250 * Millisecond, rounds[2..]) == Some(ShutdownError(map[b := ShutdownTimeout]));
    assert Collect({a, b}, map[], 250 * Millisecond, rounds) == Some(ShutdownError(map[b := ShutdownTimeout]));
    assert gs.components == {a, b} && gs.options.timeout == 250 * Millisecond;
    var err := gs.Shutdown(0, rounds);
    assert err == Some(Aggregate(ShutdownError(map[b := ShutdownTimeout])));
    var isTimeout := IsTimeoutErr(ShutdownError(map[b := ShutdownTimeout]));
    assert isTimeout;
  }
}
