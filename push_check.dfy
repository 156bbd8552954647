/** The push readiness check (push-check.go): a boolean set from outside. */
module Push {

  class PushComponentCheck {
    const name: string
    var isReady: bool

    /** As built by ReadyCheck.RegisterPushComponent: a zero-valued flag, so not ready. */
    constructor (name: string)
      ensures this.name == name && !Ready()
    {
      this.name := name;
      isReady := false;
    }

    function Ready(): bool
      reads this
    {
      isReady
    }

    /** Stores the readiness that Ready reports until the next call; the name is a constant. */
    method SetReady(ready: bool)
      modifies this
      ensures Ready() == ready
    {
      isReady := ready;
    }
  }

  /** SetReady is last-writer-wins and idempotent. */
  method PushScenario()
  {
    var check := new PushComponentCheck("component-2");
    assert !check.Ready();
    check.SetReady(true);
    check.SetReady(true);
    assert check.Ready() && check.name == "component-2";
    check.SetReady(false);
    assert !check.Ready();
  }
}
