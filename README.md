# go-lifecycle: a Dafny model of graceful shutdown and readiness checks

This project models the sequential core of the `lifecycle` Go package, which has two parts.

- **Graceful shutdown** (`GracefulShutdown`). Components register under unique names. `Shutdown` cancels the
  application context, then polls every component's completion channel until all have reported or the timeout
  has passed. It returns nil, or a `ShutdownError` that maps each failed or timed-out component to its cause.
- **Readiness** (`ReadyCheck`). This is an ordered, append-only list of checks: poll, push, pulse or custom.
  `Ready` is the conjunction of the checks' readiness, and `Explain` maps each check's name to its readiness.

Time and concurrency are made explicit inputs:

- Instants and durations are integer nanoseconds.
- The collection loop reads a sequence of `Round`s. Each round gives the clock at the deadline check and what
  the non-blocking receives find: a map from component name to `None` (nil) or `Some(error)`. A name missing
  from the map has not sent anything yet.
- A pulse check's `Ready` takes the current instant `now`.
- One pass of a poll check's loop is `Iterate(probe)`, where `probe` is the probe function's result.
  A separate state machine (`Poll.Next`/`Poll.Run`) describes how a concurrent `Stop` interleaves with the loop.

Modules:

- `Wrappers`: `Option`.
- `ShutdownErrors`: the error values, `errors.Is` and `IsTimeoutErr`.
- `ShutdownCollection`: the collection loop as a function, `Collect`, and the lemmas about it.
- `Shutdown`: option defaulting and the `GracefulShutdown` class, whose `WaitForComponents` loop is proved
  equal to `Collect`.
- `Push`, `Pulse`, `Poll`: the three check classes.
- `Readiness`: the tagged check variants and the `ReadyCheck` class.

The repository's files disagree in one place. `readycheck.go:83-84` builds the poll check
with `&atomic.Bool{}` values, but `poll-check.go:7-8` declares plain `bool` fields. The model follows
`poll-check.go`: both fields start false.

Two behaviours of the code are worth knowing. Both are proved:

- With no components and a deadline that has already passed at the first check (a negative timeout, or a
  first check that comes only after the deadline; a zero timeout is replaced by the 5-second default),
  `Shutdown` returns an empty `ShutdownError`, not nil (`ShutdownCollection.NoComponents`).
- `Explain` can show every name as ready while `Ready` is false. This happens when a not-ready check shares its
  name with a later ready check (`Readiness.ShadowedNameHidesNotReady`).

## Model

| member | source | states |
|---|---|---|
| `ShutdownErrors.IsTimeoutErr` | graceful-shutdown.go:269-280 | true iff every recorded cause is, or wraps, `ErrShutdownTimeout`; vacuously true for an empty map; the scan stops at the first other cause |
| `ShutdownCollection.Drain` | graceful-shutdown.go:231-242 | in one round, a component that sent leaves the remaining set, its name is recorded only for a non-nil error, and a component that sent nothing stays remaining |
| `ShutdownCollection.TimedOut` | graceful-shutdown.go:219-227 | once the deadline has passed, every remaining component maps to `ErrShutdownTimeout` and every earlier recorded error is kept |
| `ShutdownCollection.Collect` | graceful-shutdown.go:217-257 | the collection loop as a function of explicit rounds: each round first tests the deadline (stamping every outstanding component with the timeout), then takes whatever each outstanding component sent; it returns nil when all have sent and none failed, the aggregate when all have sent and some failed, and otherwise goes on with the next round (definition; its properties are the lemmas below) |
| `ShutdownCollection.CollectKeepsErrors` | graceful-shutdown.go:217-257 | the loop returns nil only if no error was recorded; otherwise the aggregate keeps every recorded error and names only outstanding or already-failed components |
| `ShutdownCollection.CollectEntryOrigin` | graceful-shutdown.go:217-257 | each aggregate entry is an earlier error, the timeout stamp on an outstanding component, or an error that component sent in a round before the deadline |
| `ShutdownCollection.CollectOnlyTimeouts` | graceful-shutdown.go:219-253 | when components send only nil, the result is nil or an aggregate for which `IsTimeoutErr` holds |
| `ShutdownCollection.CollectInTime` | graceful-shutdown.go:231-253 | when every component sends before the deadline (on a clock that never runs backwards), nothing is stamped as a timeout; the result is nil or a non-empty aggregate of the errors sent |
| `ShutdownCollection.NeverArrivedTimesOut` | graceful-shutdown.go:220-222 | a component that sends nothing in any round before the deadline is in the aggregate with cause `ErrShutdownTimeout` |
| `ShutdownCollection.SentErrorKept` | graceful-shutdown.go:234-238 | an error that a component sends in a round before the deadline is in the aggregate under its name, whatever the other components do later |
| `ShutdownCollection.AllSucceedInTime` | graceful-shutdown_test.go:28-37 | every component sending nil before the deadline makes the loop return nil |
| `ShutdownCollection.NoComponents` | graceful-shutdown.go:217-253 | with nothing registered, the loop returns nil before the deadline and an empty aggregate after it |
| `Shutdown.WithDefaults` | graceful-shutdown.go:66-76 | a zero timeout becomes 5s, a zero poll duration becomes 100ms, empty signals become [SIGINT, SIGTERM]; non-zero values are kept |
| `Shutdown.WithDefaultsIdempotent` | graceful-shutdown.go:66-76 | defaulted options have no zero field, so defaulting again changes nothing |
| `Shutdown.DefaultsAgree` | graceful-shutdown.go:91-99 | `NewGracefulShutdown`'s explicit defaults equal the defaulted zero options |
| `Shutdown.GracefulShutdown.WithOptions` | graceful-shutdown.go:63-88 | a new coordinator has defaulted options, no components, a live context, and is not disposed |
| `Shutdown.GracefulShutdown.Default` | graceful-shutdown.go:91-99 | a coordinator with the default options |
| `Shutdown.GracefulShutdown.RegisteredComponents` | graceful-shutdown.go:107-118 | every registered name appears exactly once, and the length equals the number of components |
| `Shutdown.GracefulShutdown.RegisterComponent` | graceful-shutdown.go:123-136 | a fresh name adds exactly that name; a taken name returns `ErrComponentAlreadyRegistered` and changes nothing |
| `Shutdown.GracefulShutdown.RegisterComponentWithFn` | graceful-shutdown.go:140-155 | registers as `RegisterComponent` does and returns its error |
| `Shutdown.GracefulShutdown.Shutdown` | graceful-shutdown.go:161-169 | cancels the context and disposes the coordinator; returns `ErrAlreadyShutdown` if it was already disposed, otherwise the collection result against the deadline now + timeout |
| `Shutdown.GracefulShutdown.WaitForShutdown` | graceful-shutdown.go:177-195 | a disposed coordinator returns `ErrAlreadyShutdown` and is left as it was; otherwise the result of `Shutdown` at the signal's instant |
| `Shutdown.GracefulShutdown.WaitForComponents` | graceful-shutdown.go:197-258 | on every exit path `disposed` is true; a second run returns `ErrAlreadyShutdown`; the first returns exactly `Collect` over the registered components |
| `Shutdown.StampTimeouts` | graceful-shutdown.go:221-223 | the loop over remaining components yields `TimedOut` |
| `Shutdown.ReceiveRound` | graceful-shutdown.go:231-242 | the loop of non-blocking receives yields `Drain` |
| `Push.PushComponentCheck.constructor` | readycheck.go:96-100 | a new push check carries the given name and is not ready |
| `Push.PushComponentCheck.Ready` | push-check.go:17-19 | reads the stored readiness (definition) |
| `Push.PushComponentCheck.SetReady` | push-check.go:16-24 | `Ready` returns the value passed to the latest `SetReady`; the name is a constant |
| `Pulse.NeverPulsedNotReady` | pulse-check.go:23-28 | with no pulse recorded the check is not ready |
| `Pulse.PulseWindow` | pulse-check.go:30 | after a pulse at t, `Ready(now)` holds iff now - t <= expiration; the bound is inclusive |
| `Pulse.PulseDecays` | pulse-check.go:30 | without a new pulse, a check that is not ready at `now` is not ready at any later instant |
| `Pulse.ZeroExpiration` | pulse-check.go:30 | with zero expiration, a check is ready only at the instant of its pulse |
| `Pulse.PulseComponentCheck.constructor` | readycheck.go:108-117 | a new pulse check has the given name and expiration, no pulse, and is never ready |
| `Pulse.PulseReady` | pulse-check.go:23-31 | no pulse: not ready; a pulse at t: ready iff now - t <= expiration (definition; its properties are the lemmas above) |
| `Pulse.PulseComponentCheck.Ready` | pulse-check.go:23-31 | `PulseReady` of the stored pulse and expiration at the instant `now` (definition) |
| `Pulse.PulseComponentCheck.RecordPulse` | pulse-check.go:33-38 | overwrites any earlier pulse; the check is then ready exactly until now + expiration |
| `Poll.PollComponentCheck.constructor` | readycheck.go:80-93 | a new poll check has the given name and delay, and is neither ready nor active |
| `Poll.PollComponentCheck.Ready` | poll-check.go:18-20 | reads the stored readiness (definition) |
| `Poll.PollComponentCheck.Start` | poll-check.go:22-23 | the check becomes active before the first probe, and readiness is unchanged; this is the machine's `StartCalled` step |
| `Poll.PollComponentCheck.Iterate` | poll-check.go:25-29 | a pass probes only if the check is active at the loop test, and stores the probe's result as the readiness; an active pass is the machine's trace `[LoopTest, Probe(p)]`, an inactive one its `[LoopTest]` exit |
| `Poll.PollComponentCheck.Stop` | poll-check.go:32-34 | the check becomes inactive, and readiness stays frozen at its last value; this is the machine's `StopCalled` step in every phase |
| `Poll.Next` | poll-check.go:22-34 | one step of `Start`'s goroutine or of a concurrent `Stop`: `Start` begins a loop only when none runs, the loop test exits on an inactive flag, a probe stores its result (definition) |
| `Poll.Run` | poll-check.go:22-34 | the state after a whole interleaving of those steps, or none if some step cannot happen (definition) |
| `Poll.ReadyIsLastProbe` | poll-check.go:18-26 | after any interleaving, readiness is the most recent probe result, or the earlier value if no probe ran |
| `Poll.InactiveLoopProbes` | poll-check.go:25-29 | an inactive loop that has not passed its test never probes again unless restarted |
| `Poll.AtMostOneProbeAfterStop` | poll-check.go:22-34 | after `Stop`, at most one more probe happens, and only if the loop was already past its test |
| `Poll.StopIdempotent` | poll-check.go:32-34 | `Stop` twice is `Stop` once, and readiness is unchanged |
| `Poll.NotReadyBeforeFirstProbe` | poll-check.go:18-20 | from the initial state, before any probe runs, the check is not ready |
| `Poll.ActiveLoopProbes` | poll-check.go:25-29 | an active loop at its test goes on to probe and stores the result |
| `Readiness.ExplainKeys` | readycheck.go:59-70 | `Explain` has one key per distinct name among the registered checks |
| `Readiness.ExplainLastWins` | readycheck.go:63-69 | each name maps to the readiness of the last check registered under it |
| `Readiness.ReadyExplainsReady` | readycheck.go:44-70 | when `Ready` is true, every `Explain` value is true |
| `Readiness.DistinctNamesExplainReady` | readycheck.go:44-70 | with distinct names, `Ready` is true iff every `Explain` value is true |
| `Readiness.ShadowedNameHidesNotReady` | readycheck.go:63-69 | with a repeated name, `Explain` can be all-true while `Ready` is false |
| `Readiness.ReadyCheck.constructor` | readycheck.go:18-23 | a new registry has no checks |
| `Readiness.ReadyCheck.RegisterComponent` | readycheck.go:120-125 | appends the check at the end and keeps earlier checks in order; the name argument is not stored |
| `Readiness.ReadyCheck.RegisterPollComponent` | readycheck.go:80-93 | returns a fresh, not-ready, inactive poll check with the given name, now last in the registry |
| `Readiness.ReadyCheck.RegisterPushComponent` | readycheck.go:96-105 | returns a fresh, not-ready push check with the given name, now last in the registry |
| `Readiness.ReadyCheck.RegisterPulseComponent` | readycheck.go:108-117 | returns a fresh pulse check with the given name and no pulse, now last in the registry |
| `Readiness.ReadyCheck.Ready` | readycheck.go:44-56 | the conjunction of every registered check's readiness (true for an empty registry), scanned in order with an early exit; the registry is not modified |
| `Readiness.ReadyCheck.Explain` | readycheck.go:59-70 | the name-to-readiness map built in registration order, so the last write wins; the registry is not modified |
| `Readiness.ReadyCheck.StartPolling` | readycheck.go:26-32 | every registered poll check becomes active with its readiness unchanged; no other check is touched |
| `Readiness.ReadyCheck.StopPolling` | readycheck.go:35-41 | every registered poll check becomes inactive with its readiness frozen; no other check is touched |

## Left out

- OS signal delivery (`signal.NotifyContext`). `WaitForShutdown` takes the instant at which a configured signal
  arrived, and `options.signals` is only stored.
- The `waitMutex.TryLock` in `WaitForShutdown` and `ErrAlreadyWaitingForShutdown`. These are mutual exclusion
  between goroutines. Note that the deferred `Unlock` also runs when `TryLock` failed, which unlocks another
  waiter's lock.
- Goroutines, channels, `context` and `time.Sleep`. A component's send, including the send by the goroutine
  that `RegisterComponentWithFn` starts, is an entry in a round's `arrivals`. The application context is the
  `cancelled` flag. The poll duration and a poll check's delay are stored but do not drive the rounds.
- `Shutdown.GracefulShutdown.WaitForComponents`: termination relies on real time passing the deadline. The model
  requires that the last supplied round reaches the deadline (`Expires`).
- `Readiness.ReadyCheck.StartPolling`: runs the first statement of each poll check's `Start` synchronously. In Go
  this statement runs on a new goroutine, so a `StopPolling` that runs before that goroutine is scheduled is
  overwritten, and that loop keeps running. The state machine in `Poll` also never starts a second loop for a
  check whose loop is still running.
- The lower bound of floor(elapsed / interval) probes for a running poll check. It depends on sleep timing.
- The probe function `checkFn`. Its results are the arguments of `Iterate`.
- Read/write mutexes, atomics, and the data race on the poll check's plain booleans.
- `ShutdownError.Error()`. Its text comes from Go's map formatting.
- Go's 64-bit `time.Duration` saturation in `time.Since` and in deadline arithmetic. Integers are unbounded.
- In `errors.Is`: custom `Is` methods and multi-error unwrapping. Errors are compared by value; `errors.New`
  values compare by identity in Go.
- Custom `ComponentCheck` implementations. They are modelled as a stored name and readiness (`CustomCheck`),
  not as arbitrary code.
- `Readiness.ReadyCheck.Ready` and `Readiness.ReadyCheck.Explain`: every pulse check is evaluated at the one
  instant `now`. In Go each `Ready()` call reads the clock itself, so checks later in the scan see a slightly
  later time, and a pulse can expire between two of them.
- `Poll.PollComponentCheck.Iterate`: one call is the loop test and the probe together, so the class alone
  cannot show a `Stop` that lands between them and the one probe that still follows; `Poll.Next` shows it.
- `Readiness.ReadyCheck.Ready`: the early exit is in the loop, but the model's checks have no side effects, so
  skipping later checks is not observable and is not stated.
