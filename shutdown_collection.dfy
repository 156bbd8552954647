/**
 * The bounded collection loop of the shutdown coordinator (waitForComponents in
 * graceful-shutdown.go) as a function of its inputs. Time and channel receipts
 * are explicit: the loop sees a sequence of rounds, each carrying the clock
 * reading at the deadline check and what the non-blocking receives find.
 */
module ShutdownCollection {
  import opened Wrappers
  import opened ShutdownErrors

  /**
   * One pass of the loop: `now` is the clock when the deadline is checked;
   * `arrivals` holds, for each component whose channel has a value, the value
   * received (None for nil). A component absent from `arrivals` sent nothing yet.
   */
  datatype Round = Round(now: int, arrivals: map<string, Option<Error>>)

  /** Time passes: by the last round the deadline has been reached. */
  predicate Expires(rounds: seq<Round>, deadline: int)
  {
    |rounds| > 0 && rounds[|rounds| - 1].now >= deadline
  }

  /** The clock never runs backwards from one round to the next. */
  predicate NonDecreasing(rounds: seq<Round>)
  {
    forall i, j :: 0 <= i <= j < |rounds| ==> rounds[i].now <= rounds[j].now
  }

  /**
   * The receive pass of one round: components that sent leave the remaining
   * set, and only non-nil values are recorded as errors.
   */
  function Drain(remaining: set<string>, errs: map<string, Error>, arrivals: map<string, Option<Error>>)
    : (r: (set<string>, map<string, Error>))
    ensures forall name :: name in r.0 <==> name in remaining && name !in arrivals
    ensures forall name :: name in r.1 <==> name in errs || (name in remaining && name in arrivals && arrivals[name].Some?)
    ensures forall name :: name in r.1 ==>
              r.1[name] == if name in remaining && name in arrivals && arrivals[name].Some? then arrivals[name].value else errs[name]
  {
    (remaining - arrivals.Keys,
     errs + map name | name in remaining && name in arrivals && arrivals[name].Some? :: arrivals[name].value)
  }

  /** The timeout pass: every still-remaining component is stamped with the timeout cause. */
  function TimedOut(remaining: set<string>, errs: map<string, Error>): (r: map<string, Error>)
    ensures r.Keys == errs.Keys + remaining
    ensures forall name :: name in r ==> r[name] == if name in remaining then ShutdownTimeout else errs[name]
  {
    errs + map name | name in remaining :: ShutdownTimeout
  }

  /**
   * The result of the collection loop entered with `remaining` components
   * outstanding and `errs` recorded: None for nil, Some for a ShutdownError.
   */
  function Collect(remaining: set<string>, errs: map<string, Error>, deadline: int, rounds: seq<Round>)
    : Option<ShutdownError>
    requires Expires(rounds, deadline)
    decreases |rounds|
  {
    if rounds[0].now >= deadline then
      Some(ShutdownError(TimedOut(remaining, errs)))
    else
      var (rest, errs') := Drain(remaining, errs, rounds[0].arrivals);
      if rest == {} then
        if errs' == map[] then None else Some(ShutdownError(errs'))
      else
        Collect(rest, errs', deadline, rounds[1..])
  }

  /** The Go value returned by the loop: nil or the ShutdownError. */
  function AsError(outcome: Option<ShutdownError>): Option<Error>
  {
    match outcome
    case None => None
    case Some(failure) => Some(Aggregate(failure))
  }

  /**
   * Nil is returned only when no error was ever recorded; otherwise every error
   * recorded earlier survives into the aggregate, which names nothing but
   * components that were outstanding or had already failed.
   */
  lemma {:induction false} CollectKeepsErrors(remaining: set<string>, errs: map<string, Error>, deadline: int, rounds: seq<Round>)
    requires Expires(rounds, deadline)
    requires errs.Keys !! remaining
    ensures Collect(remaining, errs, deadline, rounds) == None ==> errs == map[]
    ensures Collect(remaining, errs, deadline, rounds) != None ==>
              var failure := Collect(remaining, errs, deadline, rounds).value.componentErrors;
              && failure.Keys <= remaining + errs.Keys
              && forall name :: name in errs ==> name in failure && failure[name] == errs[name]
    decreases |rounds|
  {
    if rounds[0].now < deadline {
      var (rest, errs') := Drain(remaining, errs, rounds[0].arrivals);
      if rest != {} {
        CollectKeepsErrors(rest, errs', deadline, rounds[1..]);
      }
    }
  }

  /**
   * Every entry of the aggregate is an error recorded before the loop started,
   * the timeout stamp, or an error a component actually sent before the deadline.
   */
  lemma {:induction false} CollectEntryOrigin(remaining: set<string>, errs: map<string, Error>, deadline: int, rounds: seq<Round>)
    requires Expires(rounds, deadline)
    requires errs.Keys !! remaining
    ensures Collect(remaining, errs, deadline, rounds) != None ==>
              var failure := Collect(remaining, errs, deadline, rounds).value.componentErrors;
              forall name :: name in failure ==>
                || (name in errs && failure[name] == errs[name])
                || (name in remaining && failure[name] == ShutdownTimeout)
                || (name in remaining && exists i :: 0 <= i < |rounds| && rounds[i].now < deadline &&
                                            name in rounds[i].arrivals && rounds[i].arrivals[name] == Some(failure[name]))
    decreases |rounds|
  {
    if rounds[0].now < deadline {
      var (rest, errs') := Drain(remaining, errs, rounds[0].arrivals);
      if rest != {} {
        CollectEntryOrigin(rest, errs', deadline, rounds[1..]);
        var outcome := Collect(rest, errs', deadline, rounds[1..]);
        if outcome != None {
          var failure := outcome.value.componentErrors;
          forall name | name in failure && name in rest &&
                        exists i :: 0 <= i < |rounds[1..]| && rounds[1..][i].now < deadline &&
                                    name in rounds[1..][i].arrivals && rounds[1..][i].arrivals[name] == Some(failure[name])
            ensures exists i :: 0 <= i < |rounds| && rounds[i].now < deadline &&
                                name in rounds[i].arrivals && rounds[i].arrivals[name] == Some(failure[name])
          {
            var i :| 0 <= i < |rounds[1..]| && rounds[1..][i].now < deadline &&
                     name in rounds[1..][i].arrivals && rounds[1..][i].arrivals[name] == Some(failure[name]);
            assert rounds[i + 1] == rounds[1..][i];
          }
        }
      }
    }
  }

  /**
   * When components send nothing but nil and nothing but timeouts was recorded,
   * the result is nil or an aggregate for which IsTimeoutErr holds.
   */
  lemma {:induction false} CollectOnlyTimeouts(remaining: set<string>, errs: map<string, Error>, deadline: int, rounds: seq<Round>)
    requires Expires(rounds, deadline)
    requires OnlyTimeouts(errs)
    requires forall i, name :: 0 <= i < |rounds| && name in rounds[i].arrivals ==> rounds[i].arrivals[name] == None
    ensures Collect(remaining, errs, deadline, rounds) != None ==>
              OnlyTimeouts(Collect(remaining, errs, deadline, rounds).value.componentErrors)
    decreases |rounds|
  {
    if rounds[0].now < deadline {
      var (rest, errs') := Drain(remaining, errs, rounds[0].arrivals);
      if rest != {} {
        forall i, name | 0 <= i < |rounds[1..]| && name in rounds[1..][i].arrivals
          ensures rounds[1..][i].arrivals[name] == None
        {
          assert rounds[1..][i] == rounds[i + 1];
        }
        CollectOnlyTimeouts(rest, errs', deadline, rounds[1..]);
      }
    }
  }

  /**
   * A component that sends nothing in any round before the deadline is in the
   * aggregate with the timeout cause (the timeout test of graceful-shutdown_test.go).
   */
  lemma {:induction false} NeverArrivedTimesOut(remaining: set<string>, errs: map<string, Error>, deadline: int,
                                                rounds: seq<Round>, name: string)
    requires Expires(rounds, deadline)
    requires name in remaining
    requires forall i :: 0 <= i < |rounds| && rounds[i].now < deadline ==> name !in rounds[i].arrivals
    ensures Collect(remaining, errs, deadline, rounds).Some?
    ensures name in Collect(remaining, errs, deadline, rounds).value.componentErrors
    ensures Collect(remaining, errs, deadline, rounds).value.componentErrors[name] == ShutdownTimeout
    decreases |rounds|
  {
    if rounds[0].now < deadline {
      var (rest, errs') := Drain(remaining, errs, rounds[0].arrivals);
      assert name in rest;
      var tail := rounds[1..];
      forall i | 0 <= i < |tail| && tail[i].now < deadline
        ensures name !in tail[i].arrivals
      {
        assert tail[i] == rounds[i + 1];
      }
      NeverArrivedTimesOut(rest, errs', deadline, tail, name);
    }
  }

  /**
   * An error that an outstanding component sends before the deadline is in the
   * aggregate under its name (the failure test of graceful-shutdown_test.go).
   */
  lemma {:induction false} SentErrorKept(remaining: set<string>, errs: map<string, Error>, deadline: int,
                                         rounds: seq<Round>, name: string, j: nat, e: Error)
    requires Expires(rounds, deadline)
    requires errs.Keys !! remaining
    requires name in remaining
    requires j < |rounds|
    requires forall i :: 0 <= i <= j ==> rounds[i].now < deadline
    requires forall i :: 0 <= i < j ==> name !in rounds[i].arrivals
    requires name in rounds[j].arrivals && rounds[j].arrivals[name] == Some(e)
    ensures Collect(remaining, errs, deadline, rounds).Some?
    ensures name in Collect(remaining, errs, deadline, rounds).value.componentErrors
    ensures Collect(remaining, errs, deadline, rounds).value.componentErrors[name] == e
    decreases j
  {
    assert rounds[0].now < deadline;
    var (rest, errs') := Drain(remaining, errs, rounds[0].arrivals);
    var tail := rounds[1..];
    if j == 0 {
      assert name in errs' && errs'[name] == e;
      if rest != {} {
        CollectKeepsErrors(rest, errs', deadline, tail);
      }
    } else {
      assert name in rest;
      forall i | 0 <= i <= j - 1 ensures tail[i].now < deadline {
        assert tail[i] == rounds[i + 1];
      }
      forall i | 0 <= i < j - 1 ensures name !in tail[i].arrivals {
        assert tail[i] == rounds[i + 1];
      }
      assert tail[j - 1] == rounds[j];
      SentErrorKept(rest, errs', deadline, tail, name, j - 1, e);
    }
  }

  /** Every outstanding component sends in some round that starts before the deadline. */
  predicate AllArriveInTime(remaining: set<string>, deadline: int, rounds: seq<Round>)
  {
    forall name :: name in remaining ==>
      exists i :: 0 <= i < |rounds| && rounds[i].now < deadline && name in rounds[i].arrivals
  }

  /**
   * A round before the deadline passes the arrival promise on to the next
   * rounds: whoever has not sent yet sends in a later round before the deadline,
   * and if someone is left, the next check is before the deadline too.
   */
  lemma ArrivalsCarryOver(remaining: set<string>, deadline: int, rounds: seq<Round>)
    requires Expires(rounds, deadline) && NonDecreasing(rounds)
    requires rounds[0].now < deadline
    requires AllArriveInTime(remaining, deadline, rounds)
    ensures AllArriveInTime(remaining - rounds[0].arrivals.Keys, deadline, rounds[1..])
    ensures remaining - rounds[0].arrivals.Keys != {} ==> |rounds| > 1 && rounds[1].now < deadline
  {
    var rest := remaining - rounds[0].arrivals.Keys;
    var tail := rounds[1..];
    forall name | name in rest
      ensures exists i :: 0 <= i < |tail| && tail[i].now < deadline && name in tail[i].arrivals
    {
      var i :| 0 <= i < |rounds| && rounds[i].now < deadline && name in rounds[i].arrivals;
      assert i != 0;
      assert tail[i - 1] == rounds[i];
    }
    if rest != {} {
      var some :| some in rest;
      var k :| 0 <= k < |rounds| && rounds[k].now < deadline && some in rounds[k].arrivals;
      assert k != 0;
      assert rounds[1].now <= rounds[k].now;
    }
  }

  /**
   * When every component sends before the deadline (on a clock that does not run
   * backwards, first checked before the deadline), no timeout is stamped: the
   * result is nil or a non-empty aggregate of errors recorded earlier or sent.
   */
  lemma {:induction false} CollectInTime(remaining: set<string>, errs: map<string, Error>, deadline: int, rounds: seq<Round>)
    requires Expires(rounds, deadline) && NonDecreasing(rounds)
    requires rounds[0].now < deadline
    requires AllArriveInTime(remaining, deadline, rounds)
    ensures Collect(remaining, errs, deadline, rounds) != None ==>
              var failure := Collect(remaining, errs, deadline, rounds).value.componentErrors;
              && failure != map[]
              && forall name :: name in failure ==>
                   || (name in errs && failure[name] == errs[name])
                   || exists i :: 0 <= i < |rounds| && rounds[i].now < deadline &&
                                  name in rounds[i].arrivals && rounds[i].arrivals[name] == Some(failure[name])
    decreases |rounds|
  {
    var (rest, errs') := Drain(remaining, errs, rounds[0].arrivals);
    if rest != {} {
      var tail := rounds[1..];
      ArrivalsCarryOver(remaining, deadline, rounds);
      CollectInTime(rest, errs', deadline, tail);
      var outcome := Collect(rest, errs', deadline, tail);
      if outcome != None {
        var failure := outcome.value.componentErrors;
        forall name | name in failure
          ensures || (name in errs && failure[name] == errs[name])
                  || exists i :: 0 <= i < |rounds| && rounds[i].now < deadline &&
                                 name in rounds[i].arrivals && rounds[i].arrivals[name] == Some(failure[name])
        {
          if name in errs' && failure[name] == errs'[name] {
            if !(name in errs && failure[name] == errs[name]) {
              assert rounds[0].arrivals[name] == Some(failure[name]);
            }
          } else {
            var i :| 0 <= i < |tail| && tail[i].now < deadline &&
                     name in tail[i].arrivals && tail[i].arrivals[name] == Some(failure[name]);
            assert rounds[i + 1] == tail[i];
          }
        }
      }
    }
  }

  /**
   * Everyone completes in time and cleanly: Shutdown returns nil (the
   * all-success case of graceful-shutdown_test.go).
   */
  lemma AllSucceedInTime(remaining: set<string>, deadline: int, rounds: seq<Round>)
    requires Expires(rounds, deadline) && NonDecreasing(rounds)
    requires rounds[0].now < deadline
    requires AllArriveInTime(remaining, deadline, rounds)
    requires forall i, name :: 0 <= i < |rounds| && name in rounds[i].arrivals ==> rounds[i].arrivals[name] == None
    ensures Collect(remaining, map[], deadline, rounds) == None
  {
    CollectInTime(remaining, map[], deadline, rounds);
  }

  /**
   * With nothing registered, the loop returns nil if the deadline has not passed
   * at the first check, but an empty aggregate if it has (a negative timeout,
   * or a first check that comes only after the deadline; a zero timeout becomes
   * DefaultTimeout).
   */
  lemma NoComponents(deadline: int, rounds: seq<Round>)
    requires Expires(rounds, deadline)
    ensures Collect({}, map[], deadline, rounds) == if rounds[0].now < deadline then None else Some(ShutdownError(map[]))
  {
  }
}
