/** PowerOnVM: guards on the VM's tools and power state, the power-on task,
    and an optional wait until the guest OS is up, bounded by a timeout
    counter. */
module PowerOnStep {
  import opened Wrappers
  import opened Tasks
  import opened Guest

  /** The step's outcome list for its settings. */
  function OutcomeScenarios(alreadyRunning: bool, waitForPowerOn: bool, specifyTimeout: bool)
    : (os: seq<OutcomeScenario>)
    ensures |os| >= 2 && os[0] == OutcomeScenario("Done", None)
    ensures os[|os| - 1] == OutcomeScenario("Error", Some("Error Message"))
    ensures OutcomeScenario("Timeout", None) in os <==> waitForPowerOn && specifyTimeout
    ensures OutcomeScenario("Already Running", None) in os <==> alreadyRunning
    ensures forall o :: o in os ==> o.name in {"Done", "Timeout", "Already Running", "Error"}
  {
    PollingOutcomes(None, waitForPowerOn && specifyTimeout, if alreadyRunning then Some("Already Running") else None)
  }

  const ToolsMissing: string := "VMware Tools need to be installed on guest to allow 'Wait for OS Boot'"
  const AlreadyOn: string := "VM Already in a running state"

  /** The boot wait from a counter value: each poll adds 5 to the counter;
      a poll past the limit gives Timeout even when it sees the guest up,
      otherwise a poll that sees the guest up ends the wait. */
  function BootWait(polls: seq<GuestView>, specifyTimeout: bool, maxTimeout: int, timeout: int)
    : (r: StepResult<()>)
    ensures r == StillPolling || r == Timeout || r == Done(())
  {
    if polls == [] then StillPolling
    else if specifyTimeout && timeout + 5 >= maxTimeout then Timeout
    else if GuestUp(polls[0]) then Done(())
    else BootWait(polls[1..], specifyTimeout, maxTimeout, timeout + 5)
  }

  /** The counter after poll k (counted from 0) has reached the limit. */
  predicate PastLimit(specifyTimeout: bool, maxTimeout: int, timeout: int, k: int)
  {
    specifyTimeout && timeout + 5 * (k + 1) >= maxTimeout
  }

  /** The `while (!isBooted)` loop over the given polls. */
  method WaitForBoot(polls: seq<GuestView>, specifyTimeout: bool, maxTimeout: int)
    returns (result: StepResult<()>)
    ensures result == BootWait(polls, specifyTimeout, maxTimeout, 5)
  {
    var isBooted := false;
    var timeout := 5;
    var i := 0;
    while !isBooted
      invariant 0 <= i <= |polls|
      invariant !isBooted ==> BootWait(polls, specifyTimeout, maxTimeout, 5) ==
                              BootWait(polls[i..], specifyTimeout, maxTimeout, timeout)
      invariant isBooted ==> BootWait(polls, specifyTimeout, maxTimeout, 5) == Done(())
      decreases |polls| - i, !isBooted
    {
      if i == |polls| {
        return StillPolling;
      }
      var view := polls[i];
      assert polls[i..][1..] == polls[i + 1..];
      if view.guestState == "running" && view.toolsRunningStatus == "guestToolsRunning" {
        isBooted := true;
      }
      timeout := timeout + 5;
      if specifyTimeout && timeout >= maxTimeout {
        return Timeout;
      }
      i := i + 1;
    }
    result := Done(());
  }

  /** The wait times out exactly when the counter reaches the limit on some
      poll with no earlier poll seeing the guest up; a boot seen on that very
      poll does not prevent it. */
  lemma {:induction false} BootWaitTimeout(polls: seq<GuestView>, specifyTimeout: bool, maxTimeout: int,
                                           timeout: int)
    ensures BootWait(polls, specifyTimeout, maxTimeout, timeout) == Timeout <==>
      exists k :: 0 <= k < |polls| && PastLimit(specifyTimeout, maxTimeout, timeout, k) &&
        forall j :: 0 <= j < k ==> !GuestUp(polls[j])
    decreases |polls|
  {
    var s, m, t := specifyTimeout, maxTimeout, timeout;
    if polls == [] {
    } else if PastLimit(s, m, t, 0) {
    } else if GuestUp(polls[0]) {
    } else {
      var rest := polls[1..];
      BootWaitTimeout(rest, s, m, t + 5);
      if exists k :: 0 <= k < |polls| && PastLimit(s, m, t, k) && forall j :: 0 <= j < k ==> !GuestUp(polls[j]) {
        var k :| 0 <= k < |polls| && PastLimit(s, m, t, k) && forall j :: 0 <= j < k ==> !GuestUp(polls[j]);
        assert k > 0 && PastLimit(s, m, t + 5, k - 1);
        assert forall j :: 0 <= j < k - 1 ==> !GuestUp(rest[j]) by {
          forall j | 0 <= j < k - 1 ensures !GuestUp(rest[j]) { assert rest[j] == polls[j + 1]; }
        }
      }
      if BootWait(rest, s, m, t + 5) == Timeout {
        var k :| 0 <= k < |rest| && PastLimit(s, m, t + 5, k) && forall j :: 0 <= j < k ==> !GuestUp(rest[j]);
        assert PastLimit(s, m, t, k + 1);
        forall j | 0 <= j < k + 1 ensures !GuestUp(polls[j]) {
          if j > 0 { assert polls[j] == rest[j - 1]; }
        }
      }
    }
  }

  /** The wait ends in Done exactly when some poll sees the guest up, no
      earlier one did, and the counter is still below the limit after it. */
  lemma {:induction false} BootWaitDone(polls: seq<GuestView>, specifyTimeout: bool, maxTimeout: int,
                                        timeout: int)
    ensures BootWait(polls, specifyTimeout, maxTimeout, timeout) == Done(()) <==>
      exists k :: 0 <= k < |polls| && GuestUp(polls[k]) && !PastLimit(specifyTimeout, maxTimeout, timeout, k) &&
        forall j :: 0 <= j < k ==> !GuestUp(polls[j])
    decreases |polls|
  {
    var s, m, t := specifyTimeout, maxTimeout, timeout;
    if polls == [] {
    } else if PastLimit(s, m, t, 0) {
    } else if GuestUp(polls[0]) {
      assert !PastLimit(s, m, t, 0);
    } else {
      var rest := polls[1..];
      BootWaitDone(rest, s, m, t + 5);
      if exists k :: 0 <= k < |polls| && GuestUp(polls[k]) && !PastLimit(s, m, t, k) &&
                     forall j :: 0 <= j < k ==> !GuestUp(polls[j]) {
        var k :| 0 <= k < |polls| && GuestUp(polls[k]) && !PastLimit(s, m, t, k) &&
                 forall j :: 0 <= j < k ==> !GuestUp(polls[j]);
        assert k > 0 && GuestUp(rest[k - 1]) && !PastLimit(s, m, t + 5, k - 1);
        assert forall j :: 0 <= j < k - 1 ==> !GuestUp(rest[j]) by {
          forall j | 0 <= j < k - 1 ensures !GuestUp(rest[j]) { assert rest[j] == polls[j + 1]; }
        }
      }
      if BootWait(rest, s, m, t + 5) == Done(()) {
        var k :| 0 <= k < |rest| && GuestUp(rest[k]) && !PastLimit(s, m, t + 5, k) &&
                 forall j :: 0 <= j < k ==> !GuestUp(rest[j]);
        assert GuestUp(polls[k + 1]) && !PastLimit(s, m, t, k + 1);
        forall j | 0 <= j < k + 1 ensures !GuestUp(polls[j]) {
          if j > 0 { assert polls[j] == rest[j - 1]; }
        }
      }
    }
  }

  /** With the limit at 10, a first poll that already sees the guest up
      still gives Timeout: the counter is checked after the boot test. */
  lemma TimeoutBeatsBoot()
    ensures BootWait([GuestView("running", "guestToolsRunning")], true, 10, 5) == Timeout
  {
  }

  /** Without a timeout setting the wait never reports Timeout. */
  lemma {:induction false} NoTimeoutUnlessSpecified(polls: seq<GuestView>, maxTimeout: int, timeout: int)
    ensures BootWait(polls, false, maxTimeout, timeout) != Timeout
    decreases |polls|
  {
    if polls != [] && !GuestUp(polls[0]) {
      NoTimeoutUnlessSpecified(polls[1..], maxTimeout, timeout + 5);
    }
  }

  /** PowerOnVM.Run from the VM lookup on. `vm` is the VM as read (None when
      not found), `taskViews` the reads of the power-on task, `polls` the
      guest reads of the boot wait. */
  method Run(vmId: string, vm: Option<VmView>, alreadyRunning: bool, waitForPowerOn: bool,
             specifyTimeout: bool, maxTimeout: int, taskViews: seq<TaskState>, polls: seq<GuestView>)
    returns (result: StepResult<()>, taskStarted: bool)
    ensures vm.None? ==> result == Error("Failed to add Find VM with ID:" + vmId) && !taskStarted
    ensures vm.Some? && waitForPowerOn && ToolsNotInstalled(vm.value) ==>
      result == Error(ToolsMissing) && !taskStarted
    ensures vm.Some? && !(waitForPowerOn && ToolsNotInstalled(vm.value)) && PoweredOn(vm.value) ==>
      result == (if alreadyRunning then AlreadyRunning else Error(AlreadyOn)) && !taskStarted
    ensures taskStarted <==>
      vm.Some? && !(waitForPowerOn && ToolsNotInstalled(vm.value)) && !PoweredOn(vm.value)
    ensures taskStarted ==>
      match Settled(taskViews)
      case None => result == StillPolling
      case Some(Failed(fault, message)) => result == Error("Failed to power on VM:" + fault + " - " + message)
      case Some(_) =>
        result == if waitForPowerOn then BootWait(polls, specifyTimeout, maxTimeout, 5) else Done(())
    ensures result != StillPolling ==> Listed(result, OutcomeScenarios(alreadyRunning, waitForPowerOn, specifyTimeout))
  {
    taskStarted := false;
    var outcomes := OutcomeScenarios(alreadyRunning, waitForPowerOn, specifyTimeout);
    assert outcomes[0].name == "Done" && outcomes[|outcomes| - 1].name == "Error";
    if vm.None? {
      return Error("Failed to add Find VM with ID:" + vmId), false;
    }
    if waitForPowerOn && vm.value.toolsVersionStatus == "guestToolsNotInstalled" {
      return Error(ToolsMissing), false;
    }
    if vm.value.powerState == "poweredOn" {
      if alreadyRunning {
        assert outcomes[|outcomes| - 2] == OutcomeScenario("Already Running", None);
        return AlreadyRunning, false;
      }
      return Error(AlreadyOn), false;
    }
    taskStarted := true;
    var final := WaitForTask(taskViews);
    if final.None? {
      return StillPolling, true;
    }
    if final.value.Failed? {
      return Error("Failed to power on VM:" + final.value.fault + " - " + final.value.localizedMessage), true;
    }
    if waitForPowerOn {
      result := WaitForBoot(polls, specifyTimeout, maxTimeout);
      if result == Timeout {
        if !specifyTimeout {
          NoTimeoutUnlessSpecified(polls, maxTimeout, 5);
        }
        assert outcomes[1] == OutcomeScenario("Timeout", None);
      }
    } else {
      result := Done(());
    }
  }
}
