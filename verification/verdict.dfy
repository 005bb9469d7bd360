/**
 The verdict of a run: `ResultStatus`, `lowestFidelity` and `CombineFidelity` (engine.go:737-792).
 */
module Verdict {
  import opened Model

  // ---- fidelity ----

  function Weight(f: Fidelity): nat {
    match f
    case Exact => 0
    case Compatible => 1
    case Approximate => 2
    case RemoteOnly => 3
  }

  /** The lower of two fidelities, that is the one of larger weight. */
  function CombineFidelity(left: Fidelity, right: Fidelity): (f: Fidelity)
    ensures f == left || f == right
    ensures Weight(f) >= Weight(left) && Weight(f) >= Weight(right)
  {
    if Weight(right) > Weight(left) then right else left
  }

  /** A triggered workflow counts with its own fidelity and those of its jobs that were not skipped. */
  ghost predicate CountsIn(workflow: Workflow, f: Fidelity) {
    workflow.triggered &&
    (f == workflow.fidelity || exists j | 0 <= j < |workflow.jobs| && workflow.jobs[j].status != StatusSkip :: workflow.jobs[j].fidelity == f)
  }

  ghost predicate Counts(workflows: seq<Workflow>, f: Fidelity) {
    exists w | 0 <= w < |workflows| :: CountsIn(workflows[w], f)
  }

  lemma CountsStep(workflows: seq<Workflow>, n: nat, f: Fidelity)
    requires n < |workflows|
    ensures Counts(workflows[..n + 1], f) <==> Counts(workflows[..n], f) || CountsIn(workflows[n], f)
  {
    var longer, shorter := workflows[..n + 1], workflows[..n];
    assert forall w | 0 <= w < n :: longer[w] == shorter[w];
    assert longer[n] == workflows[n];
  }

  /** The lowest fidelity that counts, or exact if none does. */
  ghost predicate IsLowest(workflows: seq<Workflow>, f: Fidelity) {
    && (f == Exact || Counts(workflows, f))
    && forall g | Counts(workflows, g) :: Weight(g) <= Weight(f)
  }

  method LowestFidelity(workflows: seq<Workflow>) returns (result: Fidelity)
    ensures IsLowest(workflows, result)
  {
    result := Exact;
    for w := 0 to |workflows|
      invariant IsLowest(workflows[..w], result)
    {
      result := LowestIn(workflows, w, result);
    }
    assert workflows[..|workflows|] == workflows;
  }

  method LowestIn(workflows: seq<Workflow>, w: nat, before: Fidelity) returns (result: Fidelity)
    requires w < |workflows| && IsLowest(workflows[..w], before)
    ensures IsLowest(workflows[..w + 1], result)
  {
    result := before;
    var workflow := workflows[w];
    if workflow.triggered {
      result := CombineFidelity(result, workflow.fidelity);
      for j := 0 to |workflow.jobs|
        invariant Weight(result) >= Weight(before) && Weight(result) >= Weight(workflow.fidelity)
        invariant result == before || CountsIn(workflow, result)
        invariant forall m | 0 <= m < j && workflow.jobs[m].status != StatusSkip :: Weight(workflow.jobs[m].fidelity) <= Weight(result)
      {
        if workflow.jobs[j].status != StatusSkip {
          result := CombineFidelity(result, workflow.jobs[j].fidelity);
        }
      }
    }
    forall g | Counts(workflows[..w + 1], g) ensures Weight(g) <= Weight(result) {
      CountsStep(workflows, w, g);
    }
    CountsStep(workflows, w, result);
  }

  // ---- status ----

  /** One of the first `m` jobs of the workflow has this status. */
  ghost predicate HasStatusIn(workflow: Workflow, m: nat, status: Status)
    requires m <= |workflow.jobs|
  {
    exists j | 0 <= j < m :: workflow.jobs[j].status == status
  }

  ghost predicate HasStatus(workflows: seq<Workflow>, status: Status) {
    exists w | 0 <= w < |workflows| :: HasStatusIn(workflows[w], |workflows[w].jobs|, status)
  }

  /** What the status of a run means, in order of priority. */
  ghost function StatusOf(workflows: seq<Workflow>, hasErrors: bool, executionErr: bool, cancelled: bool): Status {
    if cancelled then StatusCancelled
    else if executionErr then if hasErrors then StatusFail else StatusError
    else if HasStatus(workflows, StatusFail) then StatusFail
    else if HasStatus(workflows, StatusRemote) || HasStatus(workflows, StatusBlocked) then StatusPartial
    else StatusPass
  }

  lemma HasStatusStep(workflows: seq<Workflow>, n: nat, status: Status)
    requires n < |workflows|
    ensures HasStatus(workflows[..n + 1], status) <==>
            HasStatus(workflows[..n], status) || HasStatusIn(workflows[n], |workflows[n].jobs|, status)
  {
    var longer, shorter := workflows[..n + 1], workflows[..n];
    assert forall w | 0 <= w < n :: longer[w] == shorter[w];
    assert longer[n] == workflows[n];
  }

  lemma HasStatusMeans(workflows: seq<Workflow>, status: Status)
    ensures HasStatus(workflows, status) <==>
            exists w, j :: 0 <= w < |workflows| && 0 <= j < |workflows[w].jobs| && workflows[w].jobs[j].status == status
  {
    if w, j :| 0 <= w < |workflows| && 0 <= j < |workflows[w].jobs| && workflows[w].jobs[j].status == status {
      assert HasStatusIn(workflows[w], |workflows[w].jobs|, status);
    }
  }

  /** What the order of the fidelities makes of a workflow that is triggered and its jobs that are not skipped. */
  lemma LowestMeans(workflows: seq<Workflow>, f: Fidelity)
    requires IsLowest(workflows, f)
    ensures f == RemoteOnly <==> Counts(workflows, RemoteOnly)
    ensures f == Approximate <==> !Counts(workflows, RemoteOnly) && Counts(workflows, Approximate)
    ensures f == Compatible <==> !Counts(workflows, RemoteOnly) && !Counts(workflows, Approximate) && Counts(workflows, Compatible)
    ensures f == Exact ==> forall w, job | 0 <= w < |workflows| && workflows[w].triggered && job in workflows[w].jobs && job.status != StatusSkip ::
              workflows[w].fidelity == Exact && job.fidelity == Exact
    ensures f != Exact ==> exists w: nat | w < |workflows| && workflows[w].triggered ::
              workflows[w].fidelity == f || exists job | job in workflows[w].jobs :: job.status != StatusSkip && job.fidelity == f
  {
    forall w, job | 0 <= w < |workflows| && workflows[w].triggered && job in workflows[w].jobs && job.status != StatusSkip
      ensures Weight(workflows[w].fidelity) <= Weight(f) && Weight(job.fidelity) <= Weight(f)
    {
      var j :| 0 <= j < |workflows[w].jobs| && workflows[w].jobs[j] == job;
      assert CountsIn(workflows[w], workflows[w].fidelity) && CountsIn(workflows[w], workflows[w].jobs[j].fidelity);
    }
  }

  method ResultStatus(workflows: seq<Workflow>, hasErrors: bool, executionErr: bool, cancelled: bool)
    returns (status: Status, fidelity: Fidelity)
    ensures status == StatusOf(workflows, hasErrors, executionErr, cancelled)
    ensures status == StatusCancelled <==> cancelled
    ensures status == StatusError <==> !cancelled && executionErr && !hasErrors
    ensures status == StatusFail <==> !cancelled && if executionErr then hasErrors else
              exists w, j :: 0 <= w < |workflows| && 0 <= j < |workflows[w].jobs| && workflows[w].jobs[j].status == StatusFail
    ensures status == StatusPartial <==>
            && !cancelled && !executionErr
            && (forall w, j | 0 <= w < |workflows| && 0 <= j < |workflows[w].jobs| :: workflows[w].jobs[j].status != StatusFail)
            && exists w, j :: 0 <= w < |workflows| && 0 <= j < |workflows[w].jobs| && workflows[w].jobs[j].status in {StatusRemote, StatusBlocked}
    ensures status == StatusPass <==>
            && !cancelled && !executionErr
            && forall w, j | 0 <= w < |workflows| && 0 <= j < |workflows[w].jobs| ::
                 workflows[w].jobs[j].status !in {StatusFail, StatusRemote, StatusBlocked}
    ensures IsLowest(workflows, fidelity)
  {
    HasStatusMeans(workflows, StatusFail);
    HasStatusMeans(workflows, StatusRemote);
    HasStatusMeans(workflows, StatusBlocked);
    fidelity := LowestFidelity(workflows);
    if cancelled {
      return StatusCancelled, fidelity;
    }
    if executionErr {
      return if hasErrors then StatusFail else StatusError, fidelity;
    }
    var failed, partial := ScanJobs(workflows);
    status := if failed then StatusFail else if partial then StatusPartial else StatusPass;
  }

  /** The nested loops of lines 747-757; the scan ends at the first failed job. */
  method ScanJobs(workflows: seq<Workflow>) returns (failed: bool, partial: bool)
    ensures failed <==> HasStatus(workflows, StatusFail)
    ensures !failed ==> (partial <==> HasStatus(workflows, StatusRemote) || HasStatus(workflows, StatusBlocked))
  {
    failed, partial := false, false;
    for w := 0 to |workflows|
      invariant !HasStatus(workflows[..w], StatusFail)
      invariant partial <==> HasStatus(workflows[..w], StatusRemote) || HasStatus(workflows[..w], StatusBlocked)
    {
      var workflow := workflows[w];
      for j := 0 to |workflow.jobs|
        invariant !HasStatusIn(workflow, j, StatusFail)
        invariant partial <==>
          || HasStatus(workflows[..w], StatusRemote) || HasStatusIn(workflow, j, StatusRemote)
          || HasStatus(workflows[..w], StatusBlocked) || HasStatusIn(workflow, j, StatusBlocked)
      {
        if workflow.jobs[j].status == StatusFail {
          return true, partial;
        }
        if workflow.jobs[j].status == StatusRemote || workflow.jobs[j].status == StatusBlocked {
          partial := true;
        }
      }
      HasStatusStep(workflows, w, StatusFail);
      HasStatusStep(workflows, w, StatusRemote);
      HasStatusStep(workflows, w, StatusBlocked);
    }
    assert workflows[..|workflows|] == workflows;
  }
}
