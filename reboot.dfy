/** RebootVM: a guest reboot request and an optional wait that first sees
    the guest's tools stop and then sees the guest up again, bounded by a
    timeout counter. */
module RebootStep {
  import opened Wrappers
  import opened Guest
  import PowerOnStep

  /** The step's outcome list for its settings. */
  function OutcomeScenarios(waitForReboot: bool, specifyTimeout: bool): (os: seq<OutcomeScenario>)
    ensures |os| >= 2 && os[0] == OutcomeScenario("Done", None)
    ensures os[|os| - 1] == OutcomeScenario("Error", Some("Error Message"))
    ensures OutcomeScenario("Timeout", None) in os <==> waitForReboot && specifyTimeout
    ensures forall o :: o in os ==> o.name in {"Done", "Timeout", "Error"}
  {
    PollingOutcomes(None, waitForReboot && specifyTimeout, None)
  }

  /** The reboot wait from a counter value and the shut-down latch: a poll
      whose tools have stopped sets the latch, a poll that sees the guest up
      with the latch set ends the wait, and every poll adds 5 to the counter,
      a poll past the limit giving Timeout whatever it saw. */
  function RebootWait(polls: seq<GuestView>, specifyTimeout: bool, maxTimeout: int, timeout: int,
                      hasShutDown: bool): (r: StepResult<()>)
    ensures r == StillPolling || r == Timeout || r == Done(())
  {
    if polls == [] then StillPolling
    else
      var shutDown := hasShutDown || ToolsStopped(polls[0]);
      if specifyTimeout && timeout + 5 >= maxTimeout then Timeout
      else if GuestUp(polls[0]) && shutDown then Done(())
      else RebootWait(polls[1..], specifyTimeout, maxTimeout, timeout + 5, shutDown)
  }

  /** The `while (!isRebooted)` loop over the given polls. */
  method WaitForReboot(polls: seq<GuestView>, specifyTimeout: bool, maxTimeout: int)
    returns (result: StepResult<()>)
    ensures result == RebootWait(polls, specifyTimeout, maxTimeout, 5, false)
  {
    var isRebooted := false;
    var hasShutDown := false;
    var timeout := 5;
    var i := 0;
    while !isRebooted
      invariant 0 <= i <= |polls|
      invariant !isRebooted ==> RebootWait(polls, specifyTimeout, maxTimeout, 5, false) ==
                                RebootWait(polls[i..], specifyTimeout, maxTimeout, timeout, hasShutDown)
      invariant isRebooted ==> RebootWait(polls, specifyTimeout, maxTimeout, 5, false) == Done(())
      decreases |polls| - i, !isRebooted
    {
      if i == |polls| {
        return StillPolling;
      }
      var view := polls[i];
      assert polls[i..][1..] == polls[i + 1..];
      if view.toolsRunningStatus == "guestToolsNotRunning" {
        hasShutDown := true;
      }
      if view.guestState == "running" && view.toolsRunningStatus == "guestToolsRunning" && hasShutDown {
        isRebooted := true;
      }
      timeout := timeout + 5;
      if specifyTimeout && timeout >= maxTimeout {
        return Timeout;
      }
      i := i + 1;
    }
    result := Done(());
  }

  /** Once the latch is set the reboot wait is PowerOnVM's boot wait. */
  lemma {:induction false} LatchedIsBootWait(polls: seq<GuestView>, specifyTimeout: bool, maxTimeout: int,
                                             timeout: int)
    ensures RebootWait(polls, specifyTimeout, maxTimeout, timeout, true) ==
            PowerOnStep.BootWait(polls, specifyTimeout, maxTimeout, timeout)
    decreases |polls|
  {
    if polls != [] {
      LatchedIsBootWait(polls[1..], specifyTimeout, maxTimeout, timeout + 5);
    }
  }

  /** While no poll shows the tools stopped, the wait never reports Done. */
  lemma {:induction false} NoRebootWithoutShutdown(polls: seq<GuestView>, specifyTimeout: bool,
                                                   maxTimeout: int, timeout: int)
    requires forall j :: 0 <= j < |polls| ==> !ToolsStopped(polls[j])
    ensures RebootWait(polls, specifyTimeout, maxTimeout, timeout, false) != Done(())
    decreases |polls|
  {
    if polls != [] {
      assert !ToolsStopped(polls[0]);
      NoRebootWithoutShutdown(polls[1..], specifyTimeout, maxTimeout, timeout + 5);
    }
  }

  /** With the first tools-stopped poll at index i: Timeout when the counter
      reaches the limit by that poll, otherwise the boot wait on the polls
      after it, from the counter reached there. */
  lemma {:induction false} RebootAfterFirstShutdown(polls: seq<GuestView>, specifyTimeout: bool,
                                                    maxTimeout: int, timeout: int, i: nat)
    requires i < |polls| && ToolsStopped(polls[i])
    requires forall j :: 0 <= j < i ==> !ToolsStopped(polls[j])
    ensures RebootWait(polls, specifyTimeout, maxTimeout, timeout, false) ==
      if PowerOnStep.PastLimit(specifyTimeout, maxTimeout, timeout, i) then Timeout
      else PowerOnStep.BootWait(polls[i + 1..], specifyTimeout, maxTimeout, timeout + 5 * (i + 1))
    decreases i
  {
    var s, m, t := specifyTimeout, maxTimeout, timeout;
    if i == 0 {
      LatchedIsBootWait(polls[1..], s, m, t + 5);
    } else {
      assert !ToolsStopped(polls[0]);
      var rest := polls[1..];
      assert rest[i - 1..] == polls[i..] && rest[i..] == polls[i + 1..];
      forall j | 0 <= j < i - 1 ensures !ToolsStopped(rest[j]) {
        assert rest[j] == polls[j + 1];
      }
      RebootAfterFirstShutdown(rest, s, m, t + 5, i - 1);
    }
  }

  /** Without a timeout setting the wait never reports Timeout. */
  lemma {:induction false} NoTimeoutUnlessSpecified(polls: seq<GuestView>, maxTimeout: int, timeout: int,
                                                    hasShutDown: bool)
    ensures RebootWait(polls, false, maxTimeout, timeout, hasShutDown) != Timeout
    decreases |polls|
  {
    if polls != [] {
      var shutDown := hasShutDown || ToolsStopped(polls[0]);
      if !(GuestUp(polls[0]) && shutDown) {
        NoTimeoutUnlessSpecified(polls[1..], maxTimeout, timeout + 5, shutDown);
      }
    }
  }

  /** RebootVM.Run after connecting. `rebootFault` is the message of the
      exception RebootGuest throws, if it does; `polls` the guest reads of
      the wait. */
  method Run(rebootFault: Option<string>, waitForReboot: bool, specifyTimeout: bool, maxTimeout: int,
             polls: seq<GuestView>)
    returns (result: StepResult<()>)
    ensures rebootFault.Some? ==> result == Error(rebootFault.value)
    ensures rebootFault.None? ==>
      result == if waitForReboot then RebootWait(polls, specifyTimeout, maxTimeout, 5, false) else Done(())
    ensures result != StillPolling ==> Listed(result, OutcomeScenarios(waitForReboot, specifyTimeout))
  {
    var outcomes := OutcomeScenarios(waitForReboot, specifyTimeout);
    assert outcomes[0].name == "Done" && outcomes[|outcomes| - 1].name == "Error";
    if rebootFault.Some? {
      return Error(rebootFault.value);
    }
    if waitForReboot {
      result := WaitForReboot(polls, specifyTimeout, maxTimeout);
      if result == Timeout {
        if !specifyTimeout {
          NoTimeoutUnlessSpecified(polls, maxTimeout, 5, false);
        }
        assert outcomes[1] == OutcomeScenario("Timeout", None);
      }
    } else {
      result := Done(());
    }
  }
}
