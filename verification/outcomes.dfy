/**
 Mapping what the run did back onto the result model: `applyOutcomes`, `markCancelled`, `ResultStatus`
 and the fidelity lattice (engine.go:405-470, 490-522, 737-792).
 */
module Outcomes {
  import opened Model
  import opened Queue
  import opened Protocol
  import opened Schedule

  /** What `applyOutcomes` is told besides the nodes and their results. */
  datatype Context = Context(record: Option<FirstFailure>, complete: bool, userCancelled: bool)

  function AfterReason(ctx: Context): string
    requires ctx.record.Some?
  {
    "cancelled after " + ctx.record.value.jobID + " failed"
  }

  function CancelReason(ctx: Context): string {
    if ctx.record.Some? then AfterReason(ctx) else "run cancelled"
  }

  function CancelledStep(step: JobStep): JobStep {
    if step.status == StatusFail || step.status == StatusRunning then step.(status := StatusCancelled) else step
  }

  function CancelledSteps(steps: seq<JobStep>, n: nat): seq<JobStep>
    requires n <= |steps|
  {
    seq(|steps|, k requires 0 <= k < |steps| => if k < n then CancelledStep(steps[k]) else steps[k])
  }

  function CancelledJob(job: Job, reason: string): Job {
    job.(status := StatusCancelled, reason := reason, steps := CancelledSteps(job.steps, |job.steps|))
  }

  /** The result on the parsed job; a job act does not know reads as unset. */
  function ResultIn(parsed: ParsedWorkflow, id: string): ActResult {
    if id in parsed then parsed[id].result else Unset
  }

  /** The first of `needs` that act knows to have ended otherwise than with success. */
  function Unmet(parsed: ParsedWorkflow, needs: seq<string>): Option<string> {
    if needs == [] then None
    else if needs[0] in parsed && parsed[needs[0]].result != Unset && parsed[needs[0]].result != Success then Some(needs[0])
    else Unmet(parsed, needs[1..])
  }

  function SkipReason(parsed: ParsedWorkflow, id: string): string {
    if id in parsed && Unmet(parsed, parsed[id].needs).Some?
    then "dependency " + Unmet(parsed, parsed[id].needs).value + " did not succeed"
    else "job condition did not run"
  }

  predicate IsFirstFailure(ctx: Context, workflowID: string, jobID: string) {
    ctx.record == Some(FirstFailure(workflowID, jobID))
  }

  /** The model entry of a scheduled job after the run (one iteration of lines 414-464). */
  function JobOutcome(ctx: Context, workflowID: string, parsed: ParsedWorkflow, seen: bool, job: Job, result: NodeResult): Job {
    if !result.dispatched then job.(status := StatusCancelled, reason := CancelReason(ctx))
    else
      var first := IsFirstFailure(ctx, workflowID, job.id);
      match ResultIn(parsed, job.id)
      case Failure =>
        if ctx.complete || first || ctx.record.None? then job.(status := StatusFail)
        else CancelledJob(job, AfterReason(ctx))
      case Success => job.(status := StatusPass)
      case Skipped => job.(status := StatusSkip, reason := SkipReason(parsed, job.id))
      case Unset =>
        if first then job.(status := StatusFail)
        else if ctx.userCancelled || (ctx.record.Some? && !ctx.complete) then CancelledJob(job, CancelReason(ctx))
        else if result.err.Some? then job.(status := StatusError, errorMessage := result.err.value)
        else if !seen then job.(status := StatusSkip, reason := "job condition did not run")
        else job.(status := StatusPass)
  }

  // ---- what the entry says ----

  /** The status of a scheduled job after the run, from act's result, the record of the first failure and the node's result. */
  lemma StatusMeans(ctx: Context, workflowID: string, parsed: ParsedWorkflow, seen: bool, job: Job, result: NodeResult)
    ensures var status := JobOutcome(ctx, workflowID, parsed, seen, job, result).status;
            var own := ctx.record.Some? && ctx.record.value.workflowID == workflowID && ctx.record.value.jobID == job.id;
            var act := if job.id in parsed then parsed[job.id].result else Unset;
            var stopped := ctx.record.Some? && !ctx.complete;
            && (status == StatusFail <==>
                  result.dispatched && ((act == Failure && (own || !stopped)) || (act == Unset && own)))
            && (status == StatusCancelled <==>
                  || !result.dispatched
                  || (act == Failure && stopped && !own)
                  || (act == Unset && (stopped || ctx.userCancelled) && !own))
            && (status == StatusError <==>
                  result.dispatched && act == Unset && !own && !stopped && !ctx.userCancelled && result.err.Some?)
            && (status == StatusSkip <==>
                  result.dispatched && (act == Skipped || (act == Unset && !own && !stopped && !ctx.userCancelled && result.err.None? && !seen)))
            && (status == StatusPass <==>
                  result.dispatched && (act == Success || (act == Unset && !own && !stopped && !ctx.userCancelled && result.err.None? && seen)))
  {
    assert ctx.record.Some? ==> ctx.record == Some(FirstFailure(ctx.record.value.workflowID, ctx.record.value.jobID));
  }

  /** A need that act knows to have failed or to have been skipped. */
  predicate NotMet(parsed: ParsedWorkflow, need: string) {
    need in parsed && (parsed[need].result == Failure || parsed[need].result == Skipped)
  }

  lemma {:induction false} UnmetMeans(parsed: ParsedWorkflow, needs: seq<string>)
    ensures Unmet(parsed, needs) == None ==> forall need | need in needs :: !NotMet(parsed, need)
    ensures Unmet(parsed, needs).Some? ==>
              exists k | 0 <= k < |needs| && NotMet(parsed, needs[k]) ::
                needs[k] == Unmet(parsed, needs).value && forall m | 0 <= m < k :: !NotMet(parsed, needs[m])
  {
    if needs != [] && !NotMet(parsed, needs[0]) {
      UnmetMeans(parsed, needs[1..]);
      if Unmet(parsed, needs).Some? {
        var k :| 0 <= k < |needs[1..]| && NotMet(parsed, needs[1..][k]) && needs[1..][k] == Unmet(parsed, needs).value
                 && forall m | 0 <= m < k :: !NotMet(parsed, needs[1..][m]);
        assert needs[k + 1] == needs[1..][k];
        assert forall m | 1 <= m < k + 1 :: needs[m] == needs[1..][m - 1];
      }
    }
  }

  /**
   The reason and the error of a scheduled job after the run. A cancelled job names the job whose failure
   stopped the run; a job act skipped names the first of its needs that failed or was itself skipped.
   */
  lemma ReasonMeans(ctx: Context, workflowID: string, parsed: ParsedWorkflow, seen: bool, job: Job, result: NodeResult)
    ensures var t := JobOutcome(ctx, workflowID, parsed, seen, job, result);
            && (t.status == StatusCancelled ==>
                  t.reason == if ctx.record.Some? then "cancelled after " + ctx.record.value.jobID + " failed" else "run cancelled")
            && (t.status == StatusSkip && (job.id !in parsed || forall need | need in parsed[job.id].needs :: !NotMet(parsed, need)) ==>
                  t.reason == "job condition did not run")
            && (t.status == StatusSkip && job.id in parsed && parsed[job.id].result == Unset ==>
                  t.reason == "job condition did not run")
            && (t.status !in {StatusCancelled, StatusSkip} ==> t.reason == job.reason)
            && t.errorMessage == if t.status == StatusError && result.err.Some? then result.err.value else job.errorMessage
    ensures forall k | job.id in parsed && parsed[job.id].result == Skipped && result.dispatched && 0 <= k < |parsed[job.id].needs| ::
              var needs := parsed[job.id].needs;
              NotMet(parsed, needs[k]) && (forall m | 0 <= m < k :: !NotMet(parsed, needs[m])) ==>
                JobOutcome(ctx, workflowID, parsed, seen, job, result).reason == "dependency " + needs[k] + " did not succeed"
  {
    if job.id in parsed {
      UnmetMeans(parsed, parsed[job.id].needs);
    }
  }

  /** Nothing but the status, the reason, the error and the steps of a job is written; a step changes only from failed or running to cancelled. */
  lemma RestIsKept(ctx: Context, workflowID: string, parsed: ParsedWorkflow, seen: bool, job: Job, result: NodeResult)
    ensures var t := JobOutcome(ctx, workflowID, parsed, seen, job, result);
            && t == job.(status := t.status, reason := t.reason, errorMessage := t.errorMessage, steps := t.steps)
            && |t.steps| == |job.steps|
            && forall k | 0 <= k < |job.steps| ::
                 t.steps[k] == if result.dispatched && t.status == StatusCancelled && job.steps[k].status in {StatusFail, StatusRunning}
                               then job.steps[k].(status := StatusCancelled) else job.steps[k]
  {
  }

  // ---- markCancelled ----

  method MarkCancelled(jobs: array<Job>, j: nat, reason: string)
    requires j < jobs.Length
    modifies jobs
    ensures jobs[..] == old(jobs[..])[j := CancelledJob(old(jobs[j]), reason)]
  {
    ghost var job := jobs[j];
    jobs[j] := jobs[j].(status := StatusCancelled, reason := reason);
    var k := 0;
    assert CancelledSteps(job.steps, 0) == job.steps;
    while k < |jobs[j].steps|
      invariant k <= |job.steps|
      invariant jobs[..] == old(jobs[..])[j := job.(status := StatusCancelled, reason := reason, steps := CancelledSteps(job.steps, k))]
      decreases |job.steps| - k
    {
      var step := jobs[j].steps[k];
      if step.status == StatusFail || step.status == StatusRunning {
        jobs[j] := jobs[j].(steps := jobs[j].steps[k := step.(status := StatusCancelled)]);
      }
      k := k + 1;
      assert jobs[j].steps == CancelledSteps(job.steps, k);
    }
  }

  /** `findJob`: the position of the first job with this ID. */
  method FindJob(jobs: array<Job>, id: string) returns (index: Option<nat>)
    ensures index.Some? ==> index.value < jobs.Length && jobs[index.value].id == id && forall j | 0 <= j < index.value :: jobs[j].id != id
    ensures index.None? ==> forall j | 0 <= j < jobs.Length :: jobs[j].id != id
  {
    for j := 0 to jobs.Length
      invariant forall m | 0 <= m < j :: jobs[m].id != id
    {
      if jobs[j].id == id {
        return Some(j);
      }
    }
    return None;
  }

  /** Lines 414-464 for a job that was found. */
  method ApplyOne(jobs: array<Job>, j: nat, ctx: Context, workflowID: string, parsed: ParsedWorkflow, seen: set<string>, result: NodeResult)
    requires j < jobs.Length
    modifies jobs
    ensures jobs[..] ==
            old(jobs[..])[j := JobOutcome(ctx, workflowID, parsed, old(jobs[j]).id in seen, old(jobs[j]), result)]
  {
    var job := jobs[j];
    if !result.dispatched {
      jobs[j] := job.(status := StatusCancelled, reason := CancelReason(ctx));
      return;
    }
    var first := IsFirstFailure(ctx, workflowID, job.id);
    match ResultIn(parsed, job.id) {
      case Failure =>
        if ctx.complete || first || ctx.record.None? {
          jobs[j] := job.(status := StatusFail);
        } else {
          MarkCancelled(jobs, j, AfterReason(ctx));
        }
      case Success =>
        jobs[j] := job.(status := StatusPass);
      case Skipped =>
        jobs[j] := job.(status := StatusSkip, reason := SkipReason(parsed, job.id));
      case Unset =>
        if first {
          jobs[j] := job.(status := StatusFail);
        } else if ctx.userCancelled || (ctx.record.Some? && !ctx.complete) {
          MarkCancelled(jobs, j, CancelReason(ctx));
        } else if result.err.Some? {
          jobs[j] := job.(status := StatusError, errorMessage := result.err.value);
        } else if job.id !in seen {
          jobs[j] := job.(status := StatusSkip, reason := "job condition did not run");
        } else {
          jobs[j] := job.(status := StatusPass);
        }
    }
  }

  // ---- applyOutcomes ----

  /** The scheduled workflows as `applyOutcomes` sees them: ID, parsed form, and the jobs the collector has seen. */
  datatype Evidence = Evidence(workflowID: string, parsed: ParsedWorkflow, seen: set<string>)

  /** The last of the first `n` nodes that stands for job `id` of scheduled workflow `state`. */
  function NodeOf(nodes: seq<Node>, n: nat, state: nat, id: string): (node: Option<nat>)
    requires n <= |nodes|
    ensures node.Some? ==> node.value < n && nodes[node.value].workflowIndex == state && nodes[node.value].jobID == id
    ensures node.None? ==> forall i | 0 <= i < n :: nodes[i].workflowIndex != state || nodes[i].jobID != id
  {
    if n == 0 then None
    else if nodes[n - 1].workflowIndex == state && nodes[n - 1].jobID == id then Some(n - 1)
    else NodeOf(nodes, n - 1, state, id)
  }

  /** A job of scheduled workflow `state` after the first `n` nodes have been mapped back. */
  function FinalJob(ctx: Context, nodes: seq<Node>, results: seq<NodeResult>, n: nat, state: nat, evidence: Evidence, job: Job): Job
    requires n <= |nodes| == |results|
  {
    match NodeOf(nodes, n, state, job.id)
    case None => job
    case Some(i) => JobOutcome(ctx, evidence.workflowID, evidence.parsed, job.id in evidence.seen, job, results[i])
  }

  function FinalJobs(ctx: Context, nodes: seq<Node>, results: seq<NodeResult>, n: nat, state: nat, evidence: Evidence, jobs: seq<Job>): seq<Job>
    requires n <= |nodes| == |results|
  {
    seq(|jobs|, j requires 0 <= j < |jobs| => FinalJob(ctx, nodes, results, n, state, evidence, jobs[j]))
  }

  /** The first engine error among the first `n` nodes that were dispatched and whose job exists. */
  function FirstError(nodes: seq<Node>, results: seq<NodeResult>, n: nat, jobs: seq<seq<Job>>): Option<string>
    requires n <= |nodes| == |results|
    requires forall i | 0 <= i < |nodes| :: nodes[i].workflowIndex < |jobs|
  {
    if n == 0 then None
    else if FirstError(nodes, results, n - 1, jobs).Some? then FirstError(nodes, results, n - 1, jobs)
    else if nodes[n - 1].jobID in IDs(jobs[nodes[n - 1].workflowIndex]) && results[n - 1].dispatched then results[n - 1].err
    else None
  }

  function IDs(jobs: seq<Job>): set<string> { set j | 0 <= j < |jobs| :: jobs[j].id }

  /** No two nodes stand for the same job. */
  ghost predicate DistinctNodes(nodes: seq<Node>) {
    forall i, x | 0 <= i < x < |nodes| :: nodes[i].workflowIndex == nodes[x].workflowIndex ==> nodes[i].jobID != nodes[x].jobID
  }

  lemma {:induction false} NodeOfNone(nodes: seq<Node>, n: nat, i: nat)
    requires DistinctNodes(nodes) && n <= i < |nodes|
    ensures NodeOf(nodes, n, nodes[i].workflowIndex, nodes[i].jobID) == None
  {
    if n > 0 { NodeOfNone(nodes, n - 1, i); }
  }

  lemma {:induction false} NodeOfNode(nodes: seq<Node>, n: nat, i: nat)
    requires DistinctNodes(nodes) && i < n <= |nodes|
    ensures NodeOf(nodes, n, nodes[i].workflowIndex, nodes[i].jobID) == Some(i)
  {
    if i < n - 1 { NodeOfNode(nodes, n - 1, i); }
  }

  /** Mapping node `n` back changes the jobs of its workflow at the position of its job only. */
  lemma FinalJobsStep(ctx: Context, nodes: seq<Node>, results: seq<NodeResult>, n: nat, evidence: Evidence, jobs: seq<Job>, j: nat)
    requires n < |nodes| == |results| && DistinctNodes(nodes) && DistinctIDs(jobs)
    requires j < |jobs| && jobs[j].id == nodes[n].jobID
    ensures FinalJobs(ctx, nodes, results, n, nodes[n].workflowIndex, evidence, jobs)[j] == jobs[j]
    ensures FinalJobs(ctx, nodes, results, n + 1, nodes[n].workflowIndex, evidence, jobs) ==
            FinalJobs(ctx, nodes, results, n, nodes[n].workflowIndex, evidence, jobs)
              [j := JobOutcome(ctx, evidence.workflowID, evidence.parsed, jobs[j].id in evidence.seen, jobs[j], results[n])]
  {
    NodeOfNone(nodes, n, n);
    forall m | 0 <= m < |jobs| && m != j ensures jobs[m].id != jobs[j].id {}
  }

  /** After all nodes, the job a node stands for is mapped back by that node. */
  lemma FinalJobOfNode(ctx: Context, nodes: seq<Node>, results: seq<NodeResult>, i: nat, evidence: Evidence, jobs: seq<Job>, j: nat)
    requires i < |nodes| == |results| && DistinctNodes(nodes) && j < |jobs| && jobs[j].id == nodes[i].jobID
    ensures FinalJobs(ctx, nodes, results, |nodes|, nodes[i].workflowIndex, evidence, jobs)[j] ==
            JobOutcome(ctx, evidence.workflowID, evidence.parsed, jobs[j].id in evidence.seen, jobs[j], results[i])
  {
    NodeOfNode(nodes, |nodes|, i);
  }

  /** A node of another workflow, or one without a job, changes nothing. */
  lemma FinalJobsOther(ctx: Context, nodes: seq<Node>, results: seq<NodeResult>, n: nat, state: nat, evidence: Evidence, jobs: seq<Job>)
    requires n < |nodes| == |results|
    requires nodes[n].workflowIndex != state || forall j | 0 <= j < |jobs| :: jobs[j].id != nodes[n].jobID
    ensures FinalJobs(ctx, nodes, results, n + 1, state, evidence, jobs) == FinalJobs(ctx, nodes, results, n, state, evidence, jobs)
  {}

  lemma FinalJobsKeepIDs(ctx: Context, nodes: seq<Node>, results: seq<NodeResult>, n: nat, state: nat, evidence: Evidence, jobs: seq<Job>)
    requires n <= |nodes| == |results|
    ensures IDs(FinalJobs(ctx, nodes, results, n, state, evidence, jobs)) == IDs(jobs)
    ensures forall j | 0 <= j < |jobs| :: FinalJobs(ctx, nodes, results, n, state, evidence, jobs)[j].id == jobs[j].id
  {
    var t := FinalJobs(ctx, nodes, results, n, state, evidence, jobs);
    assert forall j | 0 <= j < |jobs| :: t[j].id == jobs[j].id;
    forall id ensures id in IDs(t) <==> id in IDs(jobs) {
      if id in IDs(jobs) {
        var j :| 0 <= j < |jobs| && jobs[j].id == id;
        assert t[j].id == id;
      }
    }
  }

  /** One iteration of the loop of `applyOutcomes`; `jobs0` are the jobs before the first one. */
  method MapBack(jobs: array<Job>, ghost jobs0: seq<Job>, ctx: Context, nodes: seq<Node>, results: seq<NodeResult>, n: nat, evidence: Evidence)
    returns (found: bool)
    requires n < |nodes| == |results| && DistinctNodes(nodes) && DistinctIDs(jobs0)
    requires jobs[..] == FinalJobs(ctx, nodes, results, n, nodes[n].workflowIndex, evidence, jobs0)
    modifies jobs
    ensures jobs[..] == FinalJobs(ctx, nodes, results, n + 1, nodes[n].workflowIndex, evidence, jobs0)
    ensures found <==> nodes[n].jobID in IDs(jobs0)
  {
    FinalJobsKeepIDs(ctx, nodes, results, n, nodes[n].workflowIndex, evidence, jobs0);
    var index := FindJob(jobs, nodes[n].jobID);
    if index.None? {
      assert forall j | 0 <= j < |jobs0| :: jobs0[j].id == jobs[j].id;
      FinalJobsOther(ctx, nodes, results, n, nodes[n].workflowIndex, evidence, jobs0);
      return false;
    }
    assert jobs0[index.value].id == jobs[index.value].id;
    FinalJobsStep(ctx, nodes, results, n, evidence, jobs0, index.value);
    ApplyOne(jobs, index.value, ctx, evidence.workflowID, evidence.parsed, evidence.seen, results[n]);
    return true;
  }

  /** `applyOutcomes`: every job is mapped back by its node, and the first engine error is returned; `jobs` are the jobs before. */
  method ApplyOutcomes(plans: seq<array<Job>>, evidence: seq<Evidence>, nodes: seq<Node>, results: seq<NodeResult>, ctx: Context,
                       ghost jobs: seq<seq<Job>>)
    returns (executionErr: Option<string>)
    requires |plans| == |evidence| && |nodes| == |results| && DistinctNodes(nodes)
    requires forall i | 0 <= i < |nodes| :: nodes[i].workflowIndex < |plans|
    requires forall a, b | 0 <= a < b < |plans| :: plans[a] != plans[b]
    requires |jobs| == |plans| && forall a | 0 <= a < |plans| :: plans[a][..] == jobs[a] && DistinctIDs(jobs[a])
    modifies set a | 0 <= a < |plans| :: plans[a]
    ensures forall a | 0 <= a < |plans| :: plans[a][..] == FinalJobs(ctx, nodes, results, |nodes|, a, evidence[a], jobs[a])
    ensures executionErr == FirstError(nodes, results, |nodes|, jobs)
  {
    executionErr := None;
    for n := 0 to |nodes|
      invariant forall a | 0 <= a < |plans| :: plans[a][..] == FinalJobs(ctx, nodes, results, n, a, evidence[a], jobs[a])
      invariant executionErr == FirstError(nodes, results, n, jobs)
    {
      executionErr := ApplyNode(plans, evidence, nodes, results, ctx, jobs, n, executionErr);
    }
  }

  /** One iteration of the loop. */
  method ApplyNode(plans: seq<array<Job>>, evidence: seq<Evidence>, nodes: seq<Node>, results: seq<NodeResult>, ctx: Context,
                   ghost jobs: seq<seq<Job>>, n: nat, before: Option<string>)
    returns (executionErr: Option<string>)
    requires |plans| == |evidence| == |jobs| && n < |nodes| == |results| && DistinctNodes(nodes)
    requires forall i | 0 <= i < |nodes| :: nodes[i].workflowIndex < |plans|
    requires forall a, b | 0 <= a < b < |plans| :: plans[a] != plans[b]
    requires forall a | 0 <= a < |plans| :: DistinctIDs(jobs[a])
    requires forall a | 0 <= a < |plans| :: plans[a][..] == FinalJobs(ctx, nodes, results, n, a, evidence[a], jobs[a])
    requires before == FirstError(nodes, results, n, jobs)
    modifies plans[nodes[n].workflowIndex]
    ensures forall a | 0 <= a < |plans| :: plans[a][..] == FinalJobs(ctx, nodes, results, n + 1, a, evidence[a], jobs[a])
    ensures executionErr == FirstError(nodes, results, n + 1, jobs)
  {
    executionErr := before;
    var state := nodes[n].workflowIndex;
    OthersKept(evidence, nodes, results, n, ctx, jobs);
    var found := MapBack(plans[state], jobs[state], ctx, nodes, results, n, evidence[state]);
    if found && results[n].dispatched && results[n].err.Some? && executionErr.None? {
      executionErr := results[n].err;
    }
  }

  /** A node changes no job of another workflow than its own. */
  lemma OthersKept(evidence: seq<Evidence>, nodes: seq<Node>, results: seq<NodeResult>, n: nat, ctx: Context, jobs: seq<seq<Job>>)
    requires n < |nodes| == |results| && DistinctNodes(nodes) && |jobs| == |evidence|
    ensures forall a | 0 <= a < |jobs| && a != nodes[n].workflowIndex ::
              FinalJobs(ctx, nodes, results, n + 1, a, evidence[a], jobs[a]) == FinalJobs(ctx, nodes, results, n, a, evidence[a], jobs[a])
  {
    forall a | 0 <= a < |jobs| && a != nodes[n].workflowIndex
      ensures FinalJobs(ctx, nodes, results, n + 1, a, evidence[a], jobs[a]) ==
              FinalJobs(ctx, nodes, results, n, a, evidence[a], jobs[a])
    {
      FinalJobsOther(ctx, nodes, results, n, a, evidence[a], jobs[a]);
    }
  }

  /** Node `i` was dispatched and ended with this error, and its job exists. */
  ghost predicate Erred(nodes: seq<Node>, results: seq<NodeResult>, jobs: seq<seq<Job>>, i: nat, err: string) {
    && i < |nodes| == |results| && results[i] == NodeResult(true, results[i].failed, Some(err))
    && nodes[i].workflowIndex < |jobs| && exists job | job in jobs[nodes[i].workflowIndex] :: job.id == nodes[i].jobID
  }

  /** The error returned is that of the first node, in the order of the schedule, that was dispatched, has a job, and ended with one. */
  lemma {:induction false} FirstErrorExactly(nodes: seq<Node>, results: seq<NodeResult>, n: nat, jobs: seq<seq<Job>>)
    requires n <= |nodes| == |results|
    requires forall k | 0 <= k < |nodes| :: nodes[k].workflowIndex < |jobs|
    ensures FirstError(nodes, results, n, jobs).None? ==> forall i: nat, e | i < n :: !Erred(nodes, results, jobs, i, e)
    ensures FirstError(nodes, results, n, jobs).Some? ==>
              exists i: nat | i < n && Erred(nodes, results, jobs, i, FirstError(nodes, results, n, jobs).value) ::
                forall k: nat, e | k < i :: !Erred(nodes, results, jobs, k, e)
  {
    if n > 0 {
      FirstErrorExactly(nodes, results, n - 1, jobs);
      HasJob(jobs[nodes[n - 1].workflowIndex], nodes[n - 1].jobID);
      if FirstError(nodes, results, n, jobs).Some? && FirstError(nodes, results, n - 1, jobs).None? {
        assert Erred(nodes, results, jobs, n - 1, FirstError(nodes, results, n, jobs).value);
      }
    }
  }

  lemma HasJob(jobs: seq<Job>, id: string)
    ensures id in IDs(jobs) <==> exists job | job in jobs :: job.id == id
  {
    if job :| job in jobs && job.id == id {
      var j :| 0 <= j < |jobs| && jobs[j] == job;
      assert jobs[j].id in IDs(jobs);
    }
  }
}
