/** Server-side task polling: every step that starts a vSphere task re-reads
    the task until its state leaves "running"/"queued", then branches on the
    final state. The successive reads are given as a sequence. */
module Tasks {
  import opened Wrappers

  /** TaskInfoState, with the fault and localized message of a failed task. */
  datatype TaskState =
    | Queued
    | Running
    | Success
    | Failed(fault: string, localizedMessage: string)

  predicate InProgress(t: TaskState)
  {
    t.Queued? || t.Running?
  }

  /** The state the polling loop stops on: the first read that is neither
      running nor queued, or None when every given read is still in progress. */
  function Settled(views: seq<TaskState>): (r: Option<TaskState>)
    ensures r.Some? ==> !InProgress(r.value)
  {
    if views == [] then None
    else if !InProgress(views[0]) then Some(views[0])
    else Settled(views[1..])
  }

  lemma {:induction false} SettledIsFirst(views: seq<TaskState>)
    ensures Settled(views).Some? <==> exists i :: 0 <= i < |views| && !InProgress(views[i])
    ensures Settled(views).Some? ==>
      exists i :: 0 <= i < |views| && views[i] == Settled(views).value &&
        forall j :: 0 <= j < i ==> InProgress(views[j])
  {
    if views != [] && InProgress(views[0]) {
      SettledIsFirst(views[1..]);
      if Settled(views).Some? {
        var i :| 0 <= i < |views[1..]| && views[1..][i] == Settled(views[1..]).value &&
          forall j :: 0 <= j < i ==> InProgress(views[1..][j]);
        assert views[i + 1] == Settled(views).value;
        forall j | 0 <= j < i + 1 ensures InProgress(views[j]) {
          if j > 0 { assert views[j] == views[1..][j - 1]; }
        }
      }
      if exists i :: 0 <= i < |views| && !InProgress(views[i]) {
        var i :| 0 <= i < |views| && !InProgress(views[i]);
        assert i > 0 && views[1..][i - 1] == views[i];
      }
    } else if views != [] {
      assert !InProgress(views[0]);
    }
  }

  /** The `while (state == "running" || state == "queued")` loop: views[0] is
      the task as first fetched, each further element one UpdateViewData. */
  method WaitForTask(views: seq<TaskState>) returns (final: Option<TaskState>)
    ensures final == Settled(views)
  {
    var i := 0;
    while i < |views| && InProgress(views[i])
      invariant 0 <= i <= |views|
      invariant Settled(views) == Settled(views[i..])
    {
      assert views[i..][1..] == views[i + 1..];
      i := i + 1;
    }
    if i < |views| {
      final := Some(views[i]);
    } else {
      final := None;
    }
  }
}
