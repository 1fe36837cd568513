/** PowerOffVM: guards on the VM's tools and power state, a hard power-off
    or a guest shutdown, and an optional wait until the VM reads as powered
    off, bounded by a timeout counter. */
module PowerOffStep {
  import opened Wrappers
  import opened Guest

  /** The step's outcome list for its settings. */
  function OutcomeScenarios(notRunning: bool, waitForPowerOff: bool, specifyTimeout: bool)
    : (os: seq<OutcomeScenario>)
    ensures |os| >= 2 && os[0] == OutcomeScenario("Done", None)
    ensures os[|os| - 1] == OutcomeScenario("Error", Some("Error Message"))
    ensures OutcomeScenario("Timeout", None) in os <==> waitForPowerOff && specifyTimeout
    ensures OutcomeScenario("Not Running", None) in os <==> notRunning
    ensures forall o :: o in os ==> o.name in {"Done", "Timeout", "Not Running", "Error"}
  {
    PollingOutcomes(None, waitForPowerOff && specifyTimeout, if notRunning then Some("Not Running") else None)
  }

  const ToolsMissing: string := "VMware Tools need to be installed on guest to perform graceful power off"
  const NotOn: string := "Can only power off VM's in a running state"

  /** What the step asks vSphere for. */
  datatype PowerOffRequest = PowerOffTask | ShutdownGuest

  predicate Off(powerState: string)
  {
    powerState == "poweredOff"
  }

  /** The power-off wait from a counter value: a poll that reads poweredOff
      ends it; any other poll adds 3 to the counter and gives Timeout once
      the counter reaches the limit. */
  function ShutdownWait(polls: seq<string>, specifyTimeout: bool, maxTimeout: int, timeout: int)
    : (r: StepResult<()>)
    ensures r == StillPolling || r == Timeout || r == Done(())
  {
    if polls == [] then StillPolling
    else if Off(polls[0]) then Done(())
    else if specifyTimeout && timeout + 3 >= maxTimeout then Timeout
    else ShutdownWait(polls[1..], specifyTimeout, maxTimeout, timeout + 3)
  }

  /** The counter after the k-th (from 0) poll not yet powered off has
      reached the limit. */
  predicate PastLimit(specifyTimeout: bool, maxTimeout: int, timeout: int, k: int)
  {
    specifyTimeout && timeout + 3 * (k + 1) >= maxTimeout
  }

  /** The `while (!hasShutDown)` loop over the given power-state reads. */
  method WaitForPowerOff(polls: seq<string>, specifyTimeout: bool, maxTimeout: int)
    returns (result: StepResult<()>)
    ensures result == ShutdownWait(polls, specifyTimeout, maxTimeout, 5)
  {
    var hasShutDown := false;
    var timeout := 5;
    var i := 0;
    while !hasShutDown
      invariant 0 <= i <= |polls|
      invariant !hasShutDown ==> ShutdownWait(polls, specifyTimeout, maxTimeout, 5) ==
                                 ShutdownWait(polls[i..], specifyTimeout, maxTimeout, timeout)
      invariant hasShutDown ==> ShutdownWait(polls, specifyTimeout, maxTimeout, 5) == Done(())
      decreases |polls| - i, !hasShutDown
    {
      if i == |polls| {
        return StillPolling;
      }
      var powerState := polls[i];
      assert polls[i..][1..] == polls[i + 1..];
      if powerState == "poweredOff" {
        hasShutDown := true;
      } else {
        timeout := timeout + 3;
        if specifyTimeout && timeout >= maxTimeout {
          return Timeout;
        }
      }
      i := i + 1;
    }
    result := Done(());
  }

  /** Timeout exactly when the counter reaches the limit on a poll that, like
      every poll before it, does not read poweredOff: an observed power-off
      is never overridden. */
  lemma {:induction false} ShutdownWaitTimeout(polls: seq<string>, specifyTimeout: bool, maxTimeout: int,
                                               timeout: int)
    ensures ShutdownWait(polls, specifyTimeout, maxTimeout, timeout) == Timeout <==>
      exists k :: 0 <= k < |polls| && PastLimit(specifyTimeout, maxTimeout, timeout, k) &&
        forall j :: 0 <= j <= k ==> !Off(polls[j])
    decreases |polls|
  {
    var s, m, t := specifyTimeout, maxTimeout, timeout;
    if polls == [] || Off(polls[0]) {
    } else if PastLimit(s, m, t, 0) {
    } else {
      var rest := polls[1..];
      ShutdownWaitTimeout(rest, s, m, t + 3);
      if exists k :: 0 <= k < |polls| && PastLimit(s, m, t, k) && forall j :: 0 <= j <= k ==> !Off(polls[j]) {
        var k :| 0 <= k < |polls| && PastLimit(s, m, t, k) && forall j :: 0 <= j <= k ==> !Off(polls[j]);
        assert k > 0 && PastLimit(s, m, t + 3, k - 1);
        assert forall j :: 0 <= j <= k - 1 ==> !Off(rest[j]) by {
          forall j | 0 <= j <= k - 1 ensures !Off(rest[j]) { assert rest[j] == polls[j + 1]; }
        }
      }
      if ShutdownWait(rest, s, m, t + 3) == Timeout {
        var k :| 0 <= k < |rest| && PastLimit(s, m, t + 3, k) && forall j :: 0 <= j <= k ==> !Off(rest[j]);
        assert PastLimit(s, m, t, k + 1);
        forall j | 0 <= j <= k + 1 ensures !Off(polls[j]) {
          if j > 0 { assert polls[j] == rest[j - 1]; }
        }
      }
    }
  }

  /** Poll k is the first to read poweredOff, and every earlier poll left
      the counter below the limit. */
  predicate OffFirstAt(polls: seq<string>, specifyTimeout: bool, maxTimeout: int, timeout: int, k: int)
  {
    && 0 <= k < |polls| && Off(polls[k])
    && forall j :: 0 <= j < k ==> !Off(polls[j]) && !PastLimit(specifyTimeout, maxTimeout, timeout, j)
  }

  /** Dropping a poll not powered off, below the limit, shifts the first
      power-off by one and the counter by 3. */
  lemma OffFirstAtShift(polls: seq<string>, specifyTimeout: bool, maxTimeout: int, timeout: int, k: int)
    requires polls != [] && !Off(polls[0]) && !PastLimit(specifyTimeout, maxTimeout, timeout, 0) && k >= 1
    ensures OffFirstAt(polls, specifyTimeout, maxTimeout, timeout, k) <==>
            OffFirstAt(polls[1..], specifyTimeout, maxTimeout, timeout + 3, k - 1)
  {
    var s, m, t, rest := specifyTimeout, maxTimeout, timeout, polls[1..];
    if OffFirstAt(polls, s, m, t, k) {
      forall j | 0 <= j < k - 1 ensures !Off(rest[j]) && !PastLimit(s, m, t + 3, j) {
        assert rest[j] == polls[j + 1];
        assert !PastLimit(s, m, t, j + 1);
      }
    }
    if OffFirstAt(rest, s, m, t + 3, k - 1) {
      forall j | 0 <= j < k ensures !Off(polls[j]) && !PastLimit(s, m, t, j) {
        if j > 0 {
          assert polls[j] == rest[j - 1];
          assert !PastLimit(s, m, t + 3, j - 1);
        }
      }
    }
  }

  /** Done exactly when some poll reads poweredOff and every poll before it
      left the counter below the limit. */
  lemma {:induction false} ShutdownWaitDone(polls: seq<string>, specifyTimeout: bool, maxTimeout: int,
                                            timeout: int)
    ensures ShutdownWait(polls, specifyTimeout, maxTimeout, timeout) == Done(()) <==>
      exists k :: OffFirstAt(polls, specifyTimeout, maxTimeout, timeout, k)
    decreases |polls|
  {
    var s, m, t := specifyTimeout, maxTimeout, timeout;
    if polls == [] {
    } else if Off(polls[0]) {
      assert OffFirstAt(polls, s, m, t, 0);
    } else if PastLimit(s, m, t, 0) {
    } else {
      var rest := polls[1..];
      ShutdownWaitDone(rest, s, m, t + 3);
      if exists k :: OffFirstAt(polls, s, m, t, k) {
        var k :| OffFirstAt(polls, s, m, t, k);
        OffFirstAtShift(polls, s, m, t, k);
      }
      if ShutdownWait(rest, s, m, t + 3) == Done(()) {
        var k :| OffFirstAt(rest, s, m, t + 3, k);
        OffFirstAtShift(polls, s, m, t, k + 1);
      }
    }
  }

  /** PowerOffVM.Run from the VM lookup on. `vm` is the VM as read (None when
      null: the step does not check, and the first access throws),
      `polls` the power-state reads of the wait. `request` is what was sent
      to vSphere. */
  method Run(vm: Option<VmView>, notRunning: bool, hardPowerOff: bool, waitForPowerOff: bool,
             specifyTimeout: bool, maxTimeout: int, polls: seq<string>)
    returns (result: StepResult<()>, request: Option<PowerOffRequest>)
    ensures vm.None? ==> result == Error(NullReference) && request.None?
    ensures vm.Some? && !hardPowerOff && ToolsNotInstalled(vm.value) ==>
      result == Error(ToolsMissing) && request.None?
    ensures vm.Some? && !(!hardPowerOff && ToolsNotInstalled(vm.value)) && !PoweredOn(vm.value) ==>
      result == (if notRunning then NotRunning else Error(NotOn)) && request.None?
    ensures request.Some? <==>
      vm.Some? && !(!hardPowerOff && ToolsNotInstalled(vm.value)) && PoweredOn(vm.value)
    ensures request.Some? ==>
      && request.value == (if hardPowerOff then PowerOffTask else ShutdownGuest)
      && result == if waitForPowerOff then ShutdownWait(polls, specifyTimeout, maxTimeout, 5) else Done(())
    ensures result != StillPolling ==> Listed(result, OutcomeScenarios(notRunning, waitForPowerOff, specifyTimeout))
  {
    request := None;
    var outcomes := OutcomeScenarios(notRunning, waitForPowerOff, specifyTimeout);
    assert outcomes[0].name == "Done" && outcomes[|outcomes| - 1].name == "Error";
    if vm.None? {
      return Error(NullReference), None;
    }
    if !hardPowerOff && vm.value.toolsVersionStatus == "guestToolsNotInstalled" {
      return Error(ToolsMissing), None;
    }
    if vm.value.powerState != "poweredOn" {
      if notRunning {
        assert outcomes[|outcomes| - 2] == OutcomeScenario("Not Running", None);
        return NotRunning, None;
      }
      return Error(NotOn), None;
    }
    if hardPowerOff {
      request := Some(PowerOffTask);
    } else {
      request := Some(ShutdownGuest);
    }
    if waitForPowerOff {
      result := WaitForPowerOff(polls, specifyTimeout, maxTimeout);
      if result == Timeout {
        ShutdownWaitTimeout(polls, specifyTimeout, maxTimeout, 5);
        assert outcomes[1] == OutcomeScenario("Timeout", None);
      }
    } else {
      result := Done(());
    }
  }
}
