/** RunPowershellScriptOnVM: guards on the VM's tools and power state, a
    PowerShell process started in the guest with the script as an encoded
    command, and an optional wait for the process to exit, bounded by a
    timeout counter. */
module RunScriptStep {
  import opened Wrappers
  import opened Guest
  import Base64
  import Utf16
  import PowerOnStep

  /** The step's outcome list for its settings. */
  function OutcomeScenarios(waitForExecution: bool, specifyTimeout: bool, notRunning: bool)
    : (os: seq<OutcomeScenario>)
    ensures |os| >= 2 && os[0].name == "Done"
    ensures os[0].dataName == if waitForExecution then Some("Return Code") else None
    ensures os[|os| - 1] == OutcomeScenario("Error", Some("Error Message"))
    ensures OutcomeScenario("Timeout", None) in os <==> waitForExecution && specifyTimeout
    ensures OutcomeScenario("Not Running", None) in os <==> notRunning
    ensures forall o :: o in os ==> o.name in {"Done", "Timeout", "Not Running", "Error"}
  {
    PollingOutcomes(if waitForExecution then Some("Return Code") else None, waitForExecution && specifyTimeout,
                    if notRunning then Some("Not Running") else None)
  }

  const ToolsMissing: string := "VMware Tools need to be installed on guest to execute commands"
  const NotOn: string := "Can only run commands on VM's in a running state"
  /** The message of the ArgumentNullException `Encoding.GetBytes(string)`
      throws for a null string: the runtime's "null string" resource text,
      followed by the parameter name `s`. */
  const ScriptNull: string := "String reference not set to an instance of a String. (Parameter 's')"
  const PowerShellPath: string := @"C:\Windows\System32\WindowsPowerShell\v1.0\powershell.exe"
  const ArgumentsPrefix: string := "-NonInteractive -NoProfile -EncodedCommand "

  /** GuestProgramSpec: the program to start and its command line. */
  datatype ProgramSpec = ProgramSpec(programPath: string, arguments: string)

  /** The command line: PowerShell's -EncodedCommand takes the Base64 text
      of the script's UTF-16LE bytes. */
  function Arguments(script: string): string
  {
    ArgumentsPrefix + Base64.Encode(Utf16.Encode(script))
  }

  /** The script a command line of that form carries, as PowerShell reads
      it back; None for any other command line. */
  function EncodedScript(arguments: string): Option<string>
  {
    if !StartsWith(arguments, ArgumentsPrefix) then None
    else
      match Base64.Decode(arguments[|ArgumentsPrefix|..])
      case None => None
      case Some(bytes) => Utf16.Decode(bytes)
  }

  /** The command line starts with the fixed options and carries the script
      unchanged: decoding the argument gives it back. */
  lemma ArgumentsCarryScript(script: string)
    ensures StartsWith(Arguments(script), ArgumentsPrefix)
    ensures EncodedScript(Arguments(script)) == Some(script)
  {
    var args := Arguments(script);
    assert args[|ArgumentsPrefix|..] == Base64.Encode(Utf16.Encode(script));
    Base64.DecodeEncode(Utf16.Encode(script));
    Utf16.DecodeEncode(script);
  }

  /** Different scripts give different command lines. */
  lemma ArgumentsInjective(script1: string, script2: string)
    ensures Arguments(script1) == Arguments(script2) ==> script1 == script2
  {
    ArgumentsCarryScript(script1);
    ArgumentsCarryScript(script2);
  }

  /** GuestProcessInfo: Pid, the nullable EndTime and the nullable ExitCode. */
  datatype ProcessInfo = ProcessInfo(pid: int, endTime: Option<int>, exitCode: Option<int>)

  /** `processes.Any(p => p.Pid == pid && p.EndTime != null)`. */
  predicate HasExited(processes: seq<ProcessInfo>, pid: int)
    ensures HasExited(processes, pid) ==> |processes| > 0
  {
    processes != [] &&
    ((processes[0].pid == pid && processes[0].endTime.Some?) || HasExited(processes[1..], pid))
  }

  /** HasExited holds exactly when some listed process has the pid and an
      end time. */
  lemma {:induction false} HasExitedIsAny(processes: seq<ProcessInfo>, pid: int)
    ensures HasExited(processes, pid) <==>
      exists i :: 0 <= i < |processes| && processes[i].pid == pid && processes[i].endTime.Some?
  {
    if processes != [] {
      HasExitedIsAny(processes[1..], pid);
      if exists i :: 0 <= i < |processes| && processes[i].pid == pid && processes[i].endTime.Some? {
        var i :| 0 <= i < |processes| && processes[i].pid == pid && processes[i].endTime.Some?;
        if i > 0 { assert processes[1..][i - 1] == processes[i]; }
      }
      if HasExited(processes[1..], pid) && !(processes[0].pid == pid && processes[0].endTime.Some?) {
        var i :| 0 <= i < |processes[1..]| && processes[1..][i].pid == pid && processes[1..][i].endTime.Some?;
        assert processes[i + 1] == processes[1..][i];
      }
    }
  }

  /** What "Done" carries: nothing when the step does not wait, the return
      code (itself nullable) when it does. */
  datatype ScriptResult = Started | Exited(returnCode: Option<int>)

  /** The completion wait from a counter value: a process listing showing
      the process exited ends it with the first listed process's exit code;
      any other listing adds 5 to the counter and gives Timeout once the
      counter reaches the limit. */
  function CompletionWait(polls: seq<seq<ProcessInfo>>, pid: int, specifyTimeout: bool, maxTimeout: int,
                          timeout: int): (r: StepResult<ScriptResult>)
    ensures r == StillPolling || r == Timeout || (r.Done? && r.data.Exited?)
  {
    if polls == [] then StillPolling
    else if HasExited(polls[0], pid) then Done(Exited(polls[0][0].exitCode))
    else if specifyTimeout && timeout + 5 >= maxTimeout then Timeout
    else CompletionWait(polls[1..], pid, specifyTimeout, maxTimeout, timeout + 5)
  }

  /** The `while (isRunning)` loop over the given process listings. */
  method WaitForExit(polls: seq<seq<ProcessInfo>>, pid: int, specifyTimeout: bool, maxTimeout: int)
    returns (result: StepResult<ScriptResult>)
    ensures result == CompletionWait(polls, pid, specifyTimeout, maxTimeout, 5)
  {
    var isRunning := true;
    var timeout := 5;
    var i := 0;
    while isRunning
      invariant 0 <= i <= |polls|
      invariant CompletionWait(polls, pid, specifyTimeout, maxTimeout, 5) ==
                CompletionWait(polls[i..], pid, specifyTimeout, maxTimeout, timeout)
      decreases |polls| - i
    {
      if i == |polls| {
        return StillPolling;
      }
      var processes := polls[i];
      assert polls[i..][1..] == polls[i + 1..];
      if HasExited(processes, pid) {
        isRunning := false;
        return Done(Exited(processes[0].exitCode));
      } else {
        timeout := timeout + 5;
        if specifyTimeout && timeout >= maxTimeout {
          return Timeout;
        }
      }
      i := i + 1;
    }
    result := StillPolling;
  }

  /** Listing k is the first to show the process exited, every earlier one
      left the counter below the limit, and `code` is listing k's first
      entry's exit code. */
  predicate ExitedFirstAt(polls: seq<seq<ProcessInfo>>, pid: int, specifyTimeout: bool, maxTimeout: int,
                          timeout: int, k: int, code: Option<int>)
  {
    && 0 <= k < |polls| && HasExited(polls[k], pid) && code == polls[k][0].exitCode
    && forall j :: 0 <= j < k ==>
         !HasExited(polls[j], pid) && !PowerOnStep.PastLimit(specifyTimeout, maxTimeout, timeout, j)
  }

  /** Dropping a listing that shows the process running, below the limit,
      shifts the first exit by one and the counter by 5. */
  lemma ExitedFirstAtShift(polls: seq<seq<ProcessInfo>>, pid: int, specifyTimeout: bool, maxTimeout: int,
                           timeout: int, k: int, code: Option<int>)
    requires polls != [] && !HasExited(polls[0], pid)
    requires !PowerOnStep.PastLimit(specifyTimeout, maxTimeout, timeout, 0) && k >= 1
    ensures ExitedFirstAt(polls, pid, specifyTimeout, maxTimeout, timeout, k, code) <==>
            ExitedFirstAt(polls[1..], pid, specifyTimeout, maxTimeout, timeout + 5, k - 1, code)
  {
    var s, m, t, rest := specifyTimeout, maxTimeout, timeout, polls[1..];
    if ExitedFirstAt(polls, pid, s, m, t, k, code) {
      forall j | 0 <= j < k - 1 ensures !HasExited(rest[j], pid) && !PowerOnStep.PastLimit(s, m, t + 5, j) {
        assert rest[j] == polls[j + 1];
        assert !PowerOnStep.PastLimit(s, m, t, j + 1);
      }
    }
    if ExitedFirstAt(rest, pid, s, m, t + 5, k - 1, code) {
      forall j | 0 <= j < k ensures !HasExited(polls[j], pid) && !PowerOnStep.PastLimit(s, m, t, j) {
        if j > 0 {
          assert polls[j] == rest[j - 1];
          assert !PowerOnStep.PastLimit(s, m, t + 5, j - 1);
        }
      }
    }
  }

  /** The wait ends in Done exactly when some listing shows the process
      exited, no earlier one did and every earlier one left the counter below
      the limit; the code returned is that listing's first entry's. */
  lemma {:induction false} CompletionDone(polls: seq<seq<ProcessInfo>>, pid: int, specifyTimeout: bool,
                                          maxTimeout: int, timeout: int, code: Option<int>)
    ensures CompletionWait(polls, pid, specifyTimeout, maxTimeout, timeout) == Done(Exited(code)) <==>
      exists k :: ExitedFirstAt(polls, pid, specifyTimeout, maxTimeout, timeout, k, code)
    decreases |polls|
  {
    var s, m, t := specifyTimeout, maxTimeout, timeout;
    if polls == [] {
    } else if HasExited(polls[0], pid) {
      if CompletionWait(polls, pid, s, m, t) == Done(Exited(code)) {
        assert ExitedFirstAt(polls, pid, s, m, t, 0, code);
      }
    } else if PowerOnStep.PastLimit(s, m, t, 0) {
    } else {
      var rest := polls[1..];
      CompletionDone(rest, pid, s, m, t + 5, code);
      if exists k :: ExitedFirstAt(polls, pid, s, m, t, k, code) {
        var k :| ExitedFirstAt(polls, pid, s, m, t, k, code);
        ExitedFirstAtShift(polls, pid, s, m, t, k, code);
      }
      if CompletionWait(rest, pid, s, m, t + 5) == Done(Exited(code)) {
        var k :| ExitedFirstAt(rest, pid, s, m, t + 5, k, code);
        ExitedFirstAtShift(polls, pid, s, m, t, k + 1, code);
      }
    }
  }

  /** Timeout exactly when the counter reaches the limit on a listing that,
      like every listing before it, shows the process still running: an
      observed exit is never overridden. */
  lemma {:induction false} CompletionTimeout(polls: seq<seq<ProcessInfo>>, pid: int, specifyTimeout: bool,
                                             maxTimeout: int, timeout: int)
    ensures CompletionWait(polls, pid, specifyTimeout, maxTimeout, timeout) == Timeout <==>
      exists k :: 0 <= k < |polls| && PowerOnStep.PastLimit(specifyTimeout, maxTimeout, timeout, k) &&
        forall j :: 0 <= j <= k ==> !HasExited(polls[j], pid)
    decreases |polls|
  {
    var s, m, t := specifyTimeout, maxTimeout, timeout;
    if polls == [] || HasExited(polls[0], pid) {
    } else if PowerOnStep.PastLimit(s, m, t, 0) {
    } else {
      var rest := polls[1..];
      CompletionTimeout(rest, pid, s, m, t + 5);
      if exists k :: 0 <= k < |polls| && PowerOnStep.PastLimit(s, m, t, k) &&
                     forall j :: 0 <= j <= k ==> !HasExited(polls[j], pid) {
        var k :| 0 <= k < |polls| && PowerOnStep.PastLimit(s, m, t, k) &&
                 forall j :: 0 <= j <= k ==> !HasExited(polls[j], pid);
        assert k > 0 && PowerOnStep.PastLimit(s, m, t + 5, k - 1);
        forall j | 0 <= j <= k - 1 ensures !HasExited(rest[j], pid) { assert rest[j] == polls[j + 1]; }
      }
      if CompletionWait(rest, pid, s, m, t + 5) == Timeout {
        var k :| 0 <= k < |rest| && PowerOnStep.PastLimit(s, m, t + 5, k) &&
                 forall j :: 0 <= j <= k ==> !HasExited(rest[j], pid);
        assert PowerOnStep.PastLimit(s, m, t, k + 1);
        forall j | 0 <= j <= k + 1 ensures !HasExited(polls[j], pid) {
          if j > 0 { assert polls[j] == rest[j - 1]; }
        }
      }
    }
  }

  /** Starting PowerShell with the encoded script, then waiting for it when
      asked: the part of Run after every guard has passed. */
  method StartAndWait(notRunning: bool, waitForExecution: bool, specifyTimeout: bool, maxTimeout: int,
                      script: string, pid: int, polls: seq<seq<ProcessInfo>>)
    returns (result: StepResult<ScriptResult>, program: ProgramSpec)
    ensures program == ProgramSpec(PowerShellPath, Arguments(script))
    ensures result == if waitForExecution then CompletionWait(polls, pid, specifyTimeout, maxTimeout, 5)
                      else Done(Started)
    ensures result.Done? ==> (result.data.Exited? <==> waitForExecution)
    ensures result != StillPolling ==>
      Listed(result, OutcomeScenarios(waitForExecution, specifyTimeout, notRunning))
  {
    var outcomes := OutcomeScenarios(waitForExecution, specifyTimeout, notRunning);
    program := ProgramSpec(PowerShellPath, Arguments(script));
    if waitForExecution {
      result := WaitForExit(polls, pid, specifyTimeout, maxTimeout);
      if result == Timeout {
        CompletionTimeout(polls, pid, specifyTimeout, maxTimeout, 5);
        assert outcomes[1] == OutcomeScenario("Timeout", None);
      } else if result.Done? {
        assert outcomes[0].name == "Done";
      }
    } else {
      result := Done(Started);
      assert outcomes[0].name == "Done";
    }
  }

  /** RunPowershellScriptOnVM.Run from the VM lookup on. `vm` is the VM as
      read (None when null: the step does not check, and the first access
      throws), `script` the Script input (None when null: encoding it
      throws before anything starts), `pid` the id StartProgramInGuest
      returns and `polls` the process listings of the wait. `program` is
      what was started. */
  method Run(vm: Option<VmView>, notRunning: bool, waitForExecution: bool, specifyTimeout: bool,
             maxTimeout: int, script: Option<string>, pid: int, polls: seq<seq<ProcessInfo>>)
    returns (result: StepResult<ScriptResult>, program: Option<ProgramSpec>)
    ensures vm.None? ==> result == Error(NullReference) && program.None?
    ensures vm.Some? && ToolsNotInstalled(vm.value) ==> result == Error(ToolsMissing) && program.None?
    ensures vm.Some? && !ToolsNotInstalled(vm.value) && !PoweredOn(vm.value) ==>
      result == (if notRunning then NotRunning else Error(NotOn)) && program.None?
    ensures vm.Some? && !ToolsNotInstalled(vm.value) && PoweredOn(vm.value) && script.None? ==>
      result == Error(ScriptNull) && program.None?
    ensures program.Some? <==>
      vm.Some? && !ToolsNotInstalled(vm.value) && PoweredOn(vm.value) && script.Some?
    ensures program.Some? ==>
      && program.value == ProgramSpec(PowerShellPath, Arguments(script.value))
      && result == if waitForExecution then CompletionWait(polls, pid, specifyTimeout, maxTimeout, 5)
                   else Done(Started)
    ensures result.Done? ==> (result.data.Exited? <==> waitForExecution)
    ensures result != StillPolling ==>
      Listed(result, OutcomeScenarios(waitForExecution, specifyTimeout, notRunning))
  {
    var outcomes := OutcomeScenarios(waitForExecution, specifyTimeout, notRunning);
    assert outcomes[|outcomes| - 1].name == "Error";
    if vm.None? {
      return Error(NullReference), None;
    }
    if vm.value.toolsVersionStatus == "guestToolsNotInstalled" {
      return Error(ToolsMissing), None;
    }
    if vm.value.powerState != "poweredOn" {
      if notRunning {
        assert outcomes[|outcomes| - 2] == OutcomeScenario("Not Running", None);
        return NotRunning, None;
      }
      return Error(NotOn), None;
    }
    if script.None? {
      return Error(ScriptNull), None;
    }
    var started;
    result, started := StartAndWait(notRunning, waitForExecution, specifyTimeout, maxTimeout, script.value,
                                    pid, polls);
    program := Some(started);
  }
}
