/**
 * The error values of the shutdown coordinator (graceful-shutdown.go): the four
 * sentinel errors, errors a component's shutdown function may return, and the
 * aggregate ShutdownError with its IsTimeoutErr query.
 */
module ShutdownErrors {

  /** A non-nil Go `error` as the coordinator sees it. */
  datatype Error =
    | ComponentAlreadyRegistered
    | AlreadyShutdown
    | AlreadyWaitingForShutdown
    | ShutdownTimeout
      /** An error made by the component itself, e.g. with errors.New. */
    | Custom(message: string)
      /** An error that wraps another one (fmt.Errorf with %w). */
    | Wrapped(message: string, cause: Error)
      /** The aggregate returned by Shutdown. */
    | Aggregate(failure: ShutdownError)

  /** Per-component causes; a component absent from the map shut down cleanly. */
  datatype ShutdownError = ShutdownError(componentErrors: map<string, Error>)

  /** errors.Is: `err` or an error in its chain of wrapped causes is `target`. */
  predicate Is(err: Error, target: Error)
  {
    err == target || (err.Wrapped? && Is(err.cause, target))
  }

  /** Every recorded cause is (or wraps) the timeout sentinel. */
  predicate OnlyTimeouts(errs: map<string, Error>)
  {
    forall name :: name in errs ==> Is(errs[name], ShutdownTimeout)
  }

  /**
   * ShutdownError.IsTimeoutErr: scans the causes and stops at the first one
   * that is not a timeout. Vacuously true when no cause was recorded.
   */
  method IsTimeoutErr(err: ShutdownError) returns (r: bool)
    ensures r == OnlyTimeouts(err.componentErrors)
  {
    var unchecked := err.componentErrors.Keys;
    while unchecked != {}
      invariant unchecked <= err.componentErrors.Keys
      invariant forall name :: name in err.componentErrors && name !in unchecked ==>
                  Is(err.componentErrors[name], ShutdownTimeout)
      decreases unchecked
    {
      var name :| name in unchecked;
      if !Is(err.componentErrors[name], ShutdownTimeout) {
        return false;
      }
      unchecked := unchecked - {name};
    }
    return true;
  }
}
