/**
 * The bookkeeping behind `check!` inside a check scope: a failed check
 * inside a scope only raises a flag, and the scope panics once when it
 * closes; outside a scope the failed check gets a guard that panics when
 * it is dropped. The thread-local status is an object passed to each
 * operation; a panic is returned as a flag.
 */
module CheckScope {
  import opened Common

  /** The per-thread status: how many scopes are open and whether one of their checks failed. */
  class CheckStatus {
    var scopesRegistered: nat
    var panic: bool

    /** `CheckStatus::default`. */
    constructor()
      ensures scopesRegistered == 0 && !panic
    {
      scopesRegistered := 0;
      panic := false;
    }

    /** `register_check_scope`: one more scope is open. */
    method Register()
      modifies this
      ensures scopesRegistered == old(scopesRegistered) + 1
      ensures panic == old(panic)
    {
      scopesRegistered := scopesRegistered + 1;
    }

    /**
     * `close_check_scope`: one scope fewer; the flag is taken (reset to
     * false) and the scope panics iff it was set.
     */
    method Close() returns (panics: bool)
      requires scopesRegistered > 0
      modifies this
      ensures scopesRegistered == old(scopesRegistered) - 1
      ensures !panic
      ensures panics == old(panic)
    {
      scopesRegistered := scopesRegistered - 1;
      panics := panic;
      panic := false;
    }

    /**
     * `check_failed`: inside a scope the flag is raised and there is no
     * guard; outside any scope the flag is left alone and the caller gets a
     * guard that runs `onFailure` when dropped.
     */
    method CheckFailed<F>(onFailure: F) returns (guard: Option<ScopeGuard<F>>)
      modifies this
      ensures scopesRegistered == old(scopesRegistered)
      ensures old(scopesRegistered) > 0 ==> panic && guard.None?
      ensures old(scopesRegistered) == 0 ==> panic == old(panic) && guard.Some?
      ensures guard.Some? ==> fresh(guard.value) && guard.value.onDrop == Some(onFailure)
    {
      if scopesRegistered > 0 {
        panic := true;
        guard := None;
      } else {
        var g := new ScopeGuard(onFailure);
        guard := Some(g);
      }
    }
  }

  /** Runs its action when dropped, once: the action is taken out on the way. */
  class ScopeGuard<F> {
    var onDrop: Option<F>

    /** `ScopeGuard::new`. */
    constructor(action: F)
      ensures onDrop == Some(action)
    {
      onDrop := Some(action);
    }

    /**
     * `drop`: takes the action out and runs it (returned here). The action
     * is gone afterwards, so a guard cannot run it twice.
     */
    method Drop() returns (run: F)
      requires onDrop.Some?
      modifies this
      ensures run == old(onDrop).value
      ensures onDrop.None?
    {
      run := onDrop.value;
      onDrop := None;
    }
  }

  /**
   * The `check_scope!` macro with one failing check inside: the scope is
   * registered, the check only raises the flag, and closing the scope
   * restores the counter and panics.
   */
  method ScopeWithFailure(status: CheckStatus) returns (panics: bool)
    modifies status
    ensures status.scopesRegistered == old(status.scopesRegistered)
    ensures panics && !status.panic
  {
    status.Register();
    var guard := status.CheckFailed(0);
    assert guard.None?;
    panics := status.Close();
  }

  /**
   * A scope whose checks all pass: registering then closing restores the
   * counter, and it panics only if the flag was already raised.
   */
  method ScopeWithoutFailure(status: CheckStatus) returns (panics: bool)
    modifies status
    ensures status.scopesRegistered == old(status.scopesRegistered)
    ensures panics == old(status.panic) && !status.panic
  {
    status.Register();
    panics := status.Close();
  }
}
