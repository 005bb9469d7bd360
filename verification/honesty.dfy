/**
 What the verdict of a finished run is worth (engine.go:110-192, 405-470, 737-762): planning, the
 schedule, an arbitrary interleaving of the protocol, the mapping back onto the model and the
 status, taken together.
 */
module Honesty {
  import opened Model
  import opened Queue
  import opened Completeness
  import opened Protocol
  import opened Blocks
  import opened Schedule
  import opened Outcomes
  import opened Verdict

  /**
   A run that has come to its end. `workflows` are the planned workflows after dependency blocking,
   `evidence` is what act and the collectors have left behind, `otherErr` stands for the errors
   outside the queue (logs and events that could not be written), and `cancelled` is what the caller
   finds when it asks for the status.
   */
  datatype Finished = Finished(
    workflows: seq<Workflow>,
    parsed: seq<ParsedWorkflow>,
    slots: nat,
    complete: bool,
    steps: seq<Step>,
    evidence: seq<Evidence>,
    otherErr: bool,
    cancelled: bool)

  /** What planning hands to the engine: job IDs are distinct, blocking is done, untriggered jobs are skipped. */
  ghost predicate Planned(f: Finished) {
    && f.slots >= 1 && |f.workflows| == |f.parsed|
    && (forall w | 0 <= w < |f.workflows| :: DistinctIDs(f.workflows[w].jobs) && Stable(f.workflows[w].jobs))
    && (forall w | 0 <= w < |f.workflows| && !f.workflows[w].triggered :: !HasStatusIn(f.workflows[w], |f.workflows[w].jobs|, StatusPending))
  }

  function Sched(f: Finished): Scheduled
    requires |f.workflows| == |f.parsed|
  {
    ScheduleOf(f.workflows, f.parsed, f.slots, |f.workflows|)
  }

  ghost function SetupOf(f: Finished): (setup: Setup)
    requires Planned(f)
    ensures setup.Valid() && setup.cfg == Config(Sched(f).nodes, f.slots, !f.complete) && |setup.ids| == |Sched(f).states|
  {
    ScheduleFaithful(f.workflows, f.parsed, f.slots, |f.workflows|);
    ScheduleValid(f.workflows, f.parsed, f.slots, !f.complete, |f.workflows|);
    var s := Sched(f);
    NodesIndexStates(f.workflows, f.slots, s);
    Setup(Config(s.nodes, f.slots, !f.complete),
          seq(|s.states|, k requires 0 <= k < |s.states| => f.workflows[s.states[k].plan].id))
  }

  /** The protocol state in which `runQueue` returned. */
  ghost function End(f: Finished): RunState
    requires Planned(f) && Possible(SetupOf(f), f.steps)
  {
    Reached(SetupOf(f), f.steps)
  }

  /** `applyOutcomes` reads the act results that the nodes ended with. */
  ghost predicate EvidenceAgrees(f: Finished)
    requires Planned(f) && Possible(SetupOf(f), f.steps)
  {
    var s, r := Sched(f), End(f);
    && |f.evidence| == |s.states|
    && (forall k | 0 <= k < |s.states| :: f.evidence[k].workflowID == SetupOf(f).ids[k])
    && (forall i: nat | i < |s.nodes| && i in r.ended ::
          ResultIn(f.evidence[s.nodes[i].workflowIndex].parsed, s.nodes[i].jobID) == r.ended[i].result)
  }

  ghost predicate Ran(f: Finished) {
    && Planned(f)
    && Possible(SetupOf(f), f.steps)
    && Returned(End(f))
    && EvidenceAgrees(f)
    && (End(f).userCancelled ==> f.cancelled)
  }

  ghost function Results(f: Finished): seq<NodeResult>
    requires Ran(f)
  {
    seq(|Sched(f).nodes|, i requires 0 <= i < |Sched(f).nodes| => End(f).queue.ResultOf(i))
  }

  ghost function ContextOf(f: Finished): Context
    requires Ran(f)
  {
    Context(End(f).record, f.complete, End(f).userCancelled)
  }

  /** The scheduled workflow with this plan index. */
  function StateOf(states: seq<WorkflowState>, n: nat, plan: nat): (k: Option<nat>)
    requires n <= |states|
    ensures k.Some? ==> k.value < n && states[k.value].plan == plan
    ensures k.None? ==> forall m | 0 <= m < n :: states[m].plan != plan
  {
    if n == 0 then None
    else if states[n - 1].plan == plan then Some(n - 1)
    else StateOf(states, n - 1, plan)
  }

  ghost function FinalWorkflow(f: Finished, w: nat): Workflow
    requires Ran(f) && w < |f.workflows|
  {
    var s := Sched(f);
    match StateOf(s.states, |s.states|, w)
    case None => f.workflows[w]
    case Some(k) => f.workflows[w].(jobs := FinalJobs(ContextOf(f), s.nodes, Results(f), |s.nodes|, k, f.evidence[k], f.workflows[w].jobs))
  }

  ghost function FinalWorkflows(f: Finished): seq<Workflow>
    requires Ran(f)
  {
    seq(|f.workflows|, w requires 0 <= w < |f.workflows| => FinalWorkflow(f, w))
  }

  /** The jobs `applyOutcomes` starts from, by scheduled workflow. */
  ghost function PlanJobs(f: Finished): seq<seq<Job>>
    requires Planned(f)
  {
    ScheduleFaithful(f.workflows, f.parsed, f.slots, |f.workflows|);
    seq(|Sched(f).states|, k requires 0 <= k < |Sched(f).states| => f.workflows[Sched(f).states[k].plan].jobs)
  }

  ghost predicate ExecutionErr(f: Finished)
    requires Ran(f)
  {
    var s := Sched(f);
    ScheduleFaithful(f.workflows, f.parsed, f.slots, |f.workflows|);
    NodesIndexStates(f.workflows, f.slots, s);
    f.otherErr || FirstError(s.nodes, Results(f), |s.nodes|, PlanJobs(f)).Some?
  }

  ghost function VerdictOf(f: Finished): Status
    requires Ran(f)
  {
    StatusOf(FinalWorkflows(f), false, ExecutionErr(f), f.cancelled)
  }

  // ---- from nodes to final jobs ----

  /** The status `applyOutcomes` gives a node's job. */
  function OutcomeStatus(ctx: Context, first: bool, act: ActResult, seen: bool, result: NodeResult): Status {
    if !result.dispatched then StatusCancelled
    else match act
      case Failure => if ctx.complete || first || ctx.record.None? then StatusFail else StatusCancelled
      case Success => StatusPass
      case Skipped => StatusSkip
      case Unset =>
        if first then StatusFail
        else if ctx.userCancelled || (ctx.record.Some? && !ctx.complete) then StatusCancelled
        else if result.err.Some? then StatusError
        else if !seen then StatusSkip
        else StatusPass
  }

  lemma JobOutcomeStatus(ctx: Context, workflowID: string, parsed: ParsedWorkflow, seen: bool, job: Job, result: NodeResult)
    ensures JobOutcome(ctx, workflowID, parsed, seen, job, result).status ==
            OutcomeStatus(ctx, IsFirstFailure(ctx, workflowID, job.id), ResultIn(parsed, job.id), seen, result)
  {}

  ghost predicate IsNode(f: Finished, i: nat)
    requires Planned(f)
  {
    i < |Sched(f).nodes| && Sched(f).nodes[i].workflowIndex < |Sched(f).states|
  }

  ghost function NodeStatus(f: Finished, i: nat): Status
    requires Ran(f) && IsNode(f, i)
  {
    var node := Sched(f).nodes[i];
    var evidence := f.evidence[node.workflowIndex];
    OutcomeStatus(ContextOf(f), IsFirstFailure(ContextOf(f), evidence.workflowID, node.jobID),
                  ResultIn(evidence.parsed, node.jobID), node.jobID in evidence.seen, Results(f)[i])
  }

  lemma {:induction false} StateOfPlan(states: seq<WorkflowState>, n: nat, k: nat)
    requires k < n <= |states| && forall a, b | 0 <= a < b < |states| :: states[a].plan < states[b].plan
    ensures StateOf(states, n, states[k].plan) == Some(k)
  {
    if k < n - 1 { StateOfPlan(states, n - 1, k); }
  }

  /** A scheduled workflow ends with its jobs mapped back by the nodes of its state. */
  lemma FinalOfState(f: Finished, k: nat)
    requires Ran(f) && k < |Sched(f).states|
    ensures var s, w := Sched(f), Sched(f).states[k].plan;
            w < |f.workflows| &&
            FinalWorkflow(f, w).jobs == FinalJobs(ContextOf(f), s.nodes, Results(f), |s.nodes|, k, f.evidence[k], f.workflows[w].jobs)
  {
    ScheduleFaithful(f.workflows, f.parsed, f.slots, |f.workflows|);
    StateOfPlan(Sched(f).states, |Sched(f).states|, k);
  }

  ghost function EvidenceOf(f: Finished, i: nat): Evidence
    requires Ran(f) && IsNode(f, i)
  {
    f.evidence[Sched(f).nodes[i].workflowIndex]
  }

  /** The job of node `i` after the run, given the job before it. */
  ghost function Mapped(f: Finished, i: nat, job: Job): Job
    requires Ran(f) && IsNode(f, i)
  {
    var evidence := EvidenceOf(f, i);
    JobOutcome(ContextOf(f), evidence.workflowID, evidence.parsed, job.id in evidence.seen, job, Results(f)[i])
  }

  lemma MappedStatus(f: Finished, i: nat, job: Job)
    requires Ran(f) && IsNode(f, i) && job.id == Sched(f).nodes[i].jobID
    ensures Mapped(f, i, job).status == NodeStatus(f, i)
  {
    var evidence := EvidenceOf(f, i);
    JobOutcomeStatus(ContextOf(f), evidence.workflowID, evidence.parsed, job.id in evidence.seen, job, Results(f)[i]);
  }

  /** The job a node stands for ends as `applyOutcomes` maps it, and with the status of the node. */
  lemma FinalOfNode(f: Finished, i: nat, w: nat, j: nat)
    requires Ran(f) && w < |f.workflows| && j < |f.workflows[w].jobs|
    requires Describes(f.workflows, f.slots, Sched(f), i, f.workflows[w].jobs[j])
    requires Sched(f).states[Sched(f).nodes[i].workflowIndex].plan == w
    ensures IsNode(f, i) && |FinalWorkflow(f, w).jobs| == |f.workflows[w].jobs|
    ensures FinalWorkflow(f, w).jobs[j] == Mapped(f, i, f.workflows[w].jobs[j])
    ensures FinalWorkflow(f, w).jobs[j].status == NodeStatus(f, i)
  {
    ScheduleFaithful(f.workflows, f.parsed, f.slots, |f.workflows|);
    FinalOfState(f, Sched(f).nodes[i].workflowIndex);
    FinalJobOfNode(ContextOf(f), Sched(f).nodes, Results(f), i, EvidenceOf(f, i), f.workflows[w].jobs, j);
    MappedStatus(f, i, f.workflows[w].jobs[j]);
  }

  lemma SameIDSameJob(jobs: seq<Job>, job: Job, j: nat)
    requires DistinctIDs(jobs) && job in jobs && j < |jobs| && job.id == jobs[j].id
    ensures job == jobs[j]
  {
    var m :| 0 <= m < |jobs| && jobs[m] == job;
  }

  /** A job that has a node is pending. */
  lemma NodeJobPending(f: Finished, i: nat, w: nat, j: nat)
    requires Planned(f) && w < |f.workflows| && j < |f.workflows[w].jobs| && IsNode(f, i)
    requires Sched(f).states[Sched(f).nodes[i].workflowIndex].plan == w && Sched(f).nodes[i].jobID == f.workflows[w].jobs[j].id
    ensures f.workflows[w].jobs[j].status == StatusPending
  {
    ScheduleFaithful(f.workflows, f.parsed, f.slots, |f.workflows|);
    assert Described(f.workflows, f.slots, Sched(f), i);
    var job :| Describes(f.workflows, f.slots, Sched(f), i, job);
    SameIDSameJob(f.workflows[w].jobs, job, j);
  }

  /** A job that is not pending after blocking is not touched. */
  lemma FinalOfOther(f: Finished, w: nat, j: nat)
    requires Ran(f) && w < |f.workflows| && j < |f.workflows[w].jobs|
    requires f.workflows[w].jobs[j].status != StatusPending
    ensures |FinalWorkflow(f, w).jobs| == |f.workflows[w].jobs|
    ensures FinalWorkflow(f, w).jobs[j] == f.workflows[w].jobs[j]
  {
    var s, job := Sched(f), f.workflows[w].jobs[j];
    var k := StateOf(s.states, |s.states|, w);
    if k.Some? && NodeOf(s.nodes, |s.nodes|, k.value, job.id).Some? {
      NodeJobPending(f, NodeOf(s.nodes, |s.nodes|, k.value, job.id).value, w, j);
    }
  }

  /** Every pending job of the plan has a node. */
  lemma NodeFor(f: Finished, w: nat, j: nat) returns (i: nat)
    requires Planned(f) && w < |f.workflows| && j < |f.workflows[w].jobs|
    requires f.workflows[w].jobs[j].status == StatusPending
    ensures Describes(f.workflows, f.slots, Sched(f), i, f.workflows[w].jobs[j])
    ensures Sched(f).states[Sched(f).nodes[i].workflowIndex].plan == w
  {
    ScheduleFaithful(f.workflows, f.parsed, f.slots, |f.workflows|);
    assert HasStatusIn(f.workflows[w], |f.workflows[w].jobs|, StatusPending);
    i :| Describes(f.workflows, f.slots, Sched(f), i, f.workflows[w].jobs[j]) && Sched(f).states[Sched(f).nodes[i].workflowIndex].plan == w;
  }

  /** Every node stands for a pending job of the plan. */
  lemma JobFor(f: Finished, i: nat) returns (w: nat, j: nat)
    requires Planned(f) && i < |Sched(f).nodes|
    ensures w < |f.workflows| && j < |f.workflows[w].jobs|
    ensures Describes(f.workflows, f.slots, Sched(f), i, f.workflows[w].jobs[j])
    ensures Sched(f).states[Sched(f).nodes[i].workflowIndex].plan == w
  {
    ScheduleFaithful(f.workflows, f.parsed, f.slots, |f.workflows|);
    assert Described(f.workflows, f.slots, Sched(f), i);
    var job :| Describes(f.workflows, f.slots, Sched(f), i, job);
    w := Sched(f).states[Sched(f).nodes[i].workflowIndex].plan;
    j :| 0 <= j < |f.workflows[w].jobs| && f.workflows[w].jobs[j] == job;
  }

  /** Every status in the final model is that of a node or of a job that was never pending. */
  lemma FinalStatusOrigin(f: Finished, status: Status)
    requires Ran(f) && HasStatus(FinalWorkflows(f), status)
    ensures HasStatus(f.workflows, status) || exists i: nat | IsNode(f, i) :: NodeStatus(f, i) == status
  {
    var final := FinalWorkflows(f);
    var w: nat :| w < |final| && HasStatusIn(final[w], |final[w].jobs|, status);
    var j: nat :| j < |final[w].jobs| && final[w].jobs[j].status == status;
    assert final[w] == FinalWorkflow(f, w) && |FinalWorkflow(f, w).jobs| == |f.workflows[w].jobs|;
    if f.workflows[w].jobs[j].status == StatusPending {
      var i := NodeFor(f, w, j);
      FinalOfNode(f, i, w, j);
    } else {
      FinalOfOther(f, w, j);
      assert HasStatusIn(f.workflows[w], |f.workflows[w].jobs|, status);
    }
  }

  lemma NodeStatusIsFinal(f: Finished, i: nat)
    requires Ran(f) && IsNode(f, i)
    ensures HasStatus(FinalWorkflows(f), NodeStatus(f, i))
  {
    var w, j := JobFor(f, i);
    FinalOfNode(f, i, w, j);
    var final := FinalWorkflows(f);
    assert final[w] == FinalWorkflow(f, w) && HasStatusIn(final[w], |final[w].jobs|, NodeStatus(f, i));
  }

  lemma PlanStatusIsFinal(f: Finished, status: Status)
    requires Ran(f) && HasStatus(f.workflows, status) && status != StatusPending
    ensures HasStatus(FinalWorkflows(f), status)
  {
    var w: nat :| w < |f.workflows| && HasStatusIn(f.workflows[w], |f.workflows[w].jobs|, status);
    var j: nat :| j < |f.workflows[w].jobs| && f.workflows[w].jobs[j].status == status;
    FinalOfOther(f, w, j);
    var final := FinalWorkflows(f);
    assert final[w] == FinalWorkflow(f, w) && HasStatusIn(final[w], |final[w].jobs|, status);
  }

  // ---- no false green ----

  /** The needs graph of the schedule has no cycle. */
  ghost predicate Acyclic(f: Finished)
    requires Planned(f)
  {
    forall i: nat | i < |Sched(f).nodes| :: !ReachesCycle(SetupOf(f).cfg, i)
  }

  /** Node `i` was dispatched and completed, and its job passed or was skipped. */
  ghost predicate RanWell(f: Finished, i: nat)
    requires Ran(f) && IsNode(f, i)
  {
    i in End(f).queue.completed && (NodeStatus(f, i) == StatusPass || NodeStatus(f, i) == StatusSkip)
  }

  /** The first failure on record is that of the job of node `i`. */
  ghost predicate OnRecord(f: Finished, i: nat)
    requires Ran(f) && IsNode(f, i)
  {
    && End(f).record.Some?
    && End(f).record.value.workflowID == f.evidence[Sched(f).nodes[i].workflowIndex].workflowID
    && End(f).record.value.jobID == Sched(f).nodes[i].jobID
  }

  /** The recorded failure is that of node `i`: it was dispatched, and act recorded a failure for it or nothing at all. */
  ghost predicate Culprit(f: Finished, i: nat)
    requires Ran(f) && IsNode(f, i)
  {
    i in End(f).ended && OnRecord(f, i) && (End(f).ended[i].result == Failure || End(f).ended[i].result == Unset)
  }

  /** The failure that stopped the run, if one did, can be found on a job of the model. */
  ghost predicate FailureIsNamed(f: Finished)
    requires Ran(f)
  {
    !f.complete && End(f).record.Some? ==> exists i: nat | IsNode(f, i) :: Culprit(f, i)
  }

  lemma EndFacts(f: Finished, i: nat)
    requires Ran(f) && IsNode(f, i)
    ensures RunInv(SetupOf(f), End(f))
    ensures i in End(f).queue.Dispatched() ==> i in End(f).queue.completed && i in End(f).ended
    ensures i !in End(f).queue.Dispatched() && Acyclic(f) ==> (!f.complete && End(f).record.Some?) || End(f).userCancelled
    ensures Results(f)[i] == End(f).queue.ResultOf(i)
    ensures i in End(f).ended ==> ResultIn(EvidenceOf(f, i).parsed, Sched(f).nodes[i].jobID) == End(f).ended[i].result
  {
    ReachedInv(SetupOf(f), f.steps);
    UndispatchedExplained(SetupOf(f), f.steps, i);
  }

  lemma CulpritFails(f: Finished, i: nat)
    requires Ran(f) && IsNode(f, i) && Culprit(f, i)
    ensures NodeStatus(f, i) == StatusFail
  {
    EndFacts(f, i);
    assert i in End(f).queue.Dispatched();
  }

  lemma NoNodeError(f: Finished, i: nat)
    requires Ran(f) && IsNode(f, i) && !ExecutionErr(f) && Results(f)[i].dispatched
    ensures Results(f)[i].err == None
  {
    var s := Sched(f);
    var w, j := JobFor(f, i);
    ScheduleFaithful(f.workflows, f.parsed, f.slots, |f.workflows|);
    NodesIndexStates(f.workflows, f.slots, s);
    var jobs := PlanJobs(f)[s.nodes[i].workflowIndex];
    assert jobs[j].id == s.nodes[i].jobID && jobs[j] in jobs;
    FirstErrorExactly(s.nodes, Results(f), |s.nodes|, PlanJobs(f));
    if Results(f)[i].err.Some? {
      assert Erred(s.nodes, Results(f), PlanJobs(f), i, Results(f)[i].err.value);
    }
  }

  /** Without a fail-fast stop, a cancellation or an error, a node that does not fail runs to a pass or a skip. */
  lemma NodeRunsWell(f: Finished, i: nat)
    requires Ran(f) && IsNode(f, i) && Acyclic(f) && !f.cancelled && !ExecutionErr(f)
    requires f.complete || End(f).record == None
    requires NodeStatus(f, i) != StatusFail
    ensures RanWell(f, i)
  {
    EndFacts(f, i);
    NoNodeError(f, i);
  }

  /** The pending job at this place of the plan has a node that ran well, and its final status says so. */
  ghost predicate JobRanWell(f: Finished, w: nat, j: nat)
    requires Ran(f) && w < |f.workflows| && j < |f.workflows[w].jobs| && |FinalWorkflow(f, w).jobs| == |f.workflows[w].jobs|
  {
    && (exists i: nat | IsNode(f, i) :: Describes(f.workflows, f.slots, Sched(f), i, f.workflows[w].jobs[j]) && RanWell(f, i))
    && (FinalWorkflow(f, w).jobs[j].status == StatusPass || FinalWorkflow(f, w).jobs[j].status == StatusSkip)
  }

  lemma GreenNodes(f: Finished, i: nat)
    requires Ran(f) && Acyclic(f) && FailureIsNamed(f) && VerdictOf(f) == StatusPass && IsNode(f, i)
    ensures RanWell(f, i)
  {
    if !f.complete && End(f).record.Some? {
      var c: nat :| IsNode(f, c) && Culprit(f, c);
      CulpritFails(f, c);
      NodeStatusIsFinal(f, c);
    } else {
      if NodeStatus(f, i) == StatusFail {
        NodeStatusIsFinal(f, i);
      } else {
        NodeRunsWell(f, i);
      }
    }
  }

  /**
   No false green. Take any plan without needs cycles, any interleaving of completions, log failures
   and cancellation, and any evidence, and let the failure that stopped the run, if one did, be one
   that the model names. If the verdict is `pass`, then every job left pending by dependency blocking
   was dispatched, completed, and ended `pass` or `skip`; and no job failed, is blocked or is remote.
   */
  lemma NoFalseGreen(f: Finished)
    requires Ran(f) && Acyclic(f) && FailureIsNamed(f)
    requires VerdictOf(f) == StatusPass
    ensures forall w: nat, j: nat | w < |f.workflows| && j < |f.workflows[w].jobs| && f.workflows[w].jobs[j].status == StatusPending ::
              |FinalWorkflow(f, w).jobs| == |f.workflows[w].jobs| && JobRanWell(f, w, j)
    ensures !HasStatus(FinalWorkflows(f), StatusFail) && !HasStatus(FinalWorkflows(f), StatusBlocked) && !HasStatus(FinalWorkflows(f), StatusRemote)
  {
    forall w: nat, j: nat | w < |f.workflows| && j < |f.workflows[w].jobs| && f.workflows[w].jobs[j].status == StatusPending
      ensures |FinalWorkflow(f, w).jobs| == |f.workflows[w].jobs| && JobRanWell(f, w, j)
    {
      var i := NodeFor(f, w, j);
      FinalOfNode(f, i, w, j);
      GreenNodes(f, i);
    }
  }

  /** Whatever happens in the run, a plan with a blocked, remote or failed job is never reported as `pass`. */
  lemma UnfinishedPlanIsNotGreen(f: Finished, status: Status)
    requires Ran(f) && HasStatus(f.workflows, status)
    requires status == StatusFail || status == StatusBlocked || status == StatusRemote
    ensures VerdictOf(f) != StatusPass
  {
    PlanStatusIsFinal(f, status);
  }

  // ---- what the verdict says of the way the nodes ended ----

  /** The failure on record is that of `i`, or `i` ended with a failure in complete mode. */
  ghost predicate Fails(f: Finished, i: nat)
    requires Ran(f) && IsNode(f, i)
  {
    Culprit(f, i) || (f.complete && i in End(f).ended && End(f).ended[i].result == Failure)
  }

  /** The final status of a scheduled job, from how its node ended and what was recorded. */
  lemma NodeStatusMeans(f: Finished, i: nat)
    requires Ran(f) && IsNode(f, i)
    ensures var r, stopped := End(f), !f.complete && End(f).record.Some?;
            && (NodeStatus(f, i) == StatusFail <==> Fails(f, i))
            && (NodeStatus(f, i) == StatusCancelled <==>
                  || i !in r.ended
                  || (r.ended[i].result == Failure && !f.complete && !OnRecord(f, i))
                  || (r.ended[i].result == Unset && (stopped || r.userCancelled) && !OnRecord(f, i)))
            && (NodeStatus(f, i) == StatusError <==>
                  i in r.ended && r.ended[i].result == Unset && !stopped && !r.userCancelled && !OnRecord(f, i) && r.ended[i].err.Some?)
            && (i in r.ended && r.ended[i].result == Success ==> NodeStatus(f, i) == StatusPass)
            && (i in r.ended && r.ended[i].result == Skipped ==> NodeStatus(f, i) == StatusSkip)
            && (i in r.ended && r.ended[i].result == Unset && NodeStatus(f, i) !in {StatusFail, StatusCancelled, StatusError} ==>
                  NodeStatus(f, i) == if Sched(f).nodes[i].jobID in EvidenceOf(f, i).seen then StatusPass else StatusSkip)
  {
    EndFacts(f, i);
    var w, j := JobFor(f, i);
    var job, evidence := f.workflows[w].jobs[j], EvidenceOf(f, i);
    FinalOfNode(f, i, w, j);
    StatusMeans(ContextOf(f), evidence.workflowID, evidence.parsed, job.id in evidence.seen, job, Results(f)[i]);
  }

  /** A log or event could not be written, or some node returned an error. */
  ghost predicate Errs(f: Finished)
    requires Ran(f)
  {
    f.otherErr || exists i: nat | IsNode(f, i) && i in End(f).ended :: End(f).ended[i].err.Some?
  }

  lemma ErrorMeans(f: Finished)
    requires Ran(f)
    ensures ExecutionErr(f) <==> Errs(f)
  {
    var s := Sched(f);
    ScheduleFaithful(f.workflows, f.parsed, f.slots, |f.workflows|);
    NodesIndexStates(f.workflows, f.slots, s);
    FirstErrorExactly(s.nodes, Results(f), |s.nodes|, PlanJobs(f));
    forall i: nat | IsNode(f, i) ensures Results(f)[i].dispatched <==> i in End(f).ended
                                 ensures i in End(f).ended ==> Results(f)[i].err == End(f).ended[i].err
    {
      EndFacts(f, i);
    }
    if i: nat :| IsNode(f, i) && i in End(f).ended && End(f).ended[i].err.Some? {
      if !ExecutionErr(f) { NoNodeError(f, i); }
    }
  }

  /** Some job of the plan was left with this status by the analysis or by dependency blocking. */
  ghost predicate PlanHas(f: Finished, status: Status) {
    exists w, j :: 0 <= w < |f.workflows| && 0 <= j < |f.workflows[w].jobs| && f.workflows[w].jobs[j].status == status
  }

  lemma FinalHas(f: Finished, status: Status)
    requires Ran(f) && status in {StatusFail, StatusRemote, StatusBlocked}
    ensures HasStatus(FinalWorkflows(f), status) <==>
            PlanHas(f, status) || (status == StatusFail && exists i: nat | IsNode(f, i) :: Fails(f, i))
  {
    HasStatusMeans(f.workflows, status);
    forall i: nat | IsNode(f, i) ensures NodeStatus(f, i) == status <==> status == StatusFail && Fails(f, i)
                                 ensures HasStatus(FinalWorkflows(f), NodeStatus(f, i))
    {
      NodeStatusMeans(f, i);
      NodeStatusIsFinal(f, i);
    }
    if PlanHas(f, status) { PlanStatusIsFinal(f, status); }
    if HasStatus(FinalWorkflows(f), status) { FinalStatusOrigin(f, status); }
  }

  /**
   The verdict of every run. In fail-fast mode a failure that is on record for a node makes it `fail`, in
   complete mode any node that ended with a failure does; a plan with blocked or remote jobs is `partial`
   if nothing failed.
   */
  lemma VerdictExactly(f: Finished)
    requires Ran(f)
    ensures var failed, partial := PlanHas(f, StatusFail) || exists i: nat | IsNode(f, i) :: Fails(f, i),
                                   PlanHas(f, StatusRemote) || PlanHas(f, StatusBlocked);
            && (VerdictOf(f) == StatusCancelled <==> f.cancelled)
            && (VerdictOf(f) == StatusError <==> !f.cancelled && Errs(f))
            && (VerdictOf(f) == StatusFail <==> !f.cancelled && !Errs(f) && failed)
            && (VerdictOf(f) == StatusPartial <==> !f.cancelled && !Errs(f) && !failed && partial)
            && (VerdictOf(f) == StatusPass <==> !f.cancelled && !Errs(f) && !failed && !partial)
  {
    ErrorMeans(f);
    FinalHas(f, StatusFail);
    FinalHas(f, StatusRemote);
    FinalHas(f, StatusBlocked);
  }

  /** A failure that stopped the run and that the model names, or any failure in complete mode, is the verdict. */
  lemma FailureIsReported(f: Finished)
    requires Ran(f) && !f.cancelled && !Errs(f)
    requires if f.complete then exists i: nat | IsNode(f, i) && i in End(f).ended :: End(f).ended[i].result == Failure
             else End(f).record.Some? && FailureIsNamed(f)
    ensures VerdictOf(f) == StatusFail
  {
    VerdictExactly(f);
    if f.complete {
      var i: nat :| IsNode(f, i) && i in End(f).ended && End(f).ended[i].result == Failure;
      assert Fails(f, i);
    } else {
      var i: nat :| IsNode(f, i) && Culprit(f, i);
      assert Fails(f, i);
    }
  }

  // ---- exactly when a green verdict is false ----

  /** The verdict is `pass` although some scheduled job did not run to a pass or a skip. */
  ghost predicate FalseGreen(f: Finished)
    requires Ran(f)
  {
    VerdictOf(f) == StatusPass && exists i: nat | IsNode(f, i) :: !RanWell(f, i)
  }

  /** Node `i` was never dispatched, or act recorded a failure for it or nothing at all. */
  ghost predicate TornDown(f: Finished, i: nat)
    requires Ran(f)
  {
    i in End(f).ended ==> End(f).ended[i].result == Failure || End(f).ended[i].result == Unset
  }

  lemma TornDownStatus(f: Finished, i: nat)
    requires Ran(f) && IsNode(f, i) && !f.complete && End(f).record.Some?
    ensures NodeStatus(f, i) == StatusFail ==> Culprit(f, i)
    ensures !Culprit(f, i) ==> (TornDown(f, i) <==> NodeStatus(f, i) == StatusCancelled)
    ensures !TornDown(f, i) ==> RanWell(f, i)
  {
    EndFacts(f, i);
  }

  lemma FalseGreenIsUnnamed(f: Finished) returns (i: nat)
    requires Ran(f) && Acyclic(f) && !f.cancelled && !ExecutionErr(f) && FalseGreen(f)
    ensures !FailureIsNamed(f) && IsNode(f, i) && TornDown(f, i)
  {
    i :| IsNode(f, i) && !RanWell(f, i);
    if FailureIsNamed(f) {
      GreenNodes(f, i);
    } else {
      TornDownStatus(f, i);
    }
  }

  lemma UnnamedIsFalseGreen(f: Finished, i: nat)
    requires Ran(f) && !f.cancelled && !ExecutionErr(f) && !FailureIsNamed(f) && IsNode(f, i) && TornDown(f, i)
    requires !HasStatus(f.workflows, StatusFail) && !HasStatus(f.workflows, StatusBlocked) && !HasStatus(f.workflows, StatusRemote)
    ensures FalseGreen(f)
  {
    TornDownStatus(f, i);
    UnnamedStatuses(f, StatusFail);
    UnnamedStatuses(f, StatusBlocked);
    UnnamedStatuses(f, StatusRemote);
  }

  /**
   Without cancellation, errors, or jobs the plan itself marks failed, blocked or remote, a green
   verdict is false exactly when the run was stopped by a failure that is not that of a dispatched
   node with act result failure or unset, and the stop left some job undone.
   */
  lemma FalseGreenExactly(f: Finished)
    requires Ran(f) && Acyclic(f) && !f.cancelled && !ExecutionErr(f)
    requires !HasStatus(f.workflows, StatusFail) && !HasStatus(f.workflows, StatusBlocked) && !HasStatus(f.workflows, StatusRemote)
    ensures FalseGreen(f) <==> !FailureIsNamed(f) && exists i: nat | IsNode(f, i) :: TornDown(f, i)
  {
    if FalseGreen(f) {
      var i := FalseGreenIsUnnamed(f);
    }
    if !FailureIsNamed(f) && exists i: nat | IsNode(f, i) :: TornDown(f, i) {
      var i: nat :| IsNode(f, i) && TornDown(f, i);
      UnnamedIsFalseGreen(f, i);
    }
  }

  lemma UnnamedStatuses(f: Finished, status: Status)
    requires Ran(f) && !FailureIsNamed(f) && !HasStatus(f.workflows, status)
    requires status == StatusFail || status == StatusBlocked || status == StatusRemote
    ensures !HasStatus(FinalWorkflows(f), status)
  {
    if HasStatus(FinalWorkflows(f), status) {
      FinalStatusOrigin(f, status);
      var k: nat :| IsNode(f, k) && NodeStatus(f, k) == status;
      TornDownStatus(f, k);
    }
  }

  /** A cancelled job names the job whose failure stopped the run, or the cancellation of the run; one with an error carries the error of its node. */
  lemma FinalReasonMeans(f: Finished, i: nat, w: nat, j: nat)
    requires Ran(f) && w < |f.workflows| && j < |f.workflows[w].jobs|
    requires Describes(f.workflows, f.slots, Sched(f), i, f.workflows[w].jobs[j])
    requires Sched(f).states[Sched(f).nodes[i].workflowIndex].plan == w
    ensures IsNode(f, i) && |FinalWorkflow(f, w).jobs| == |f.workflows[w].jobs|
    ensures var t, r := FinalWorkflow(f, w).jobs[j], End(f);
            && (t.status == StatusCancelled ==>
                  t.reason == if r.record.Some? then "cancelled after " + r.record.value.jobID + " failed" else "run cancelled")
            && (t.status == StatusError ==> i in r.ended && r.ended[i].err == Some(t.errorMessage))
            && t.needs == f.workflows[w].jobs[j].needs && t.id == f.workflows[w].jobs[j].id && t.fidelity == f.workflows[w].jobs[j].fidelity
  {
    FinalOfNode(f, i, w, j);
    NodeStatusMeans(f, i);
    EndFacts(f, i);
    var job, evidence := f.workflows[w].jobs[j], EvidenceOf(f, i);
    ReasonMeans(ContextOf(f), evidence.workflowID, evidence.parsed, job.id in evidence.seen, job, Results(f)[i]);
    RestIsKept(ContextOf(f), evidence.workflowID, evidence.parsed, job.id in evidence.seen, job, Results(f)[i]);
  }

  // ---- teardown ----

  /** After a fail-fast stop only the recorded failure may be a `fail`; everything else passed, was skipped or is cancelled. */
  lemma TeardownHonest(f: Finished, i: nat)
    requires Ran(f) && IsNode(f, i) && !f.complete && End(f).record.Some?
    ensures NodeStatus(f, i) == StatusFail ==> Culprit(f, i)
    ensures NodeStatus(f, i) == StatusFail || NodeStatus(f, i) == StatusPass || NodeStatus(f, i) == StatusSkip || NodeStatus(f, i) == StatusCancelled
  {
    TornDownStatus(f, i);
  }

  /** With distinct workflow IDs at most one scheduled job ends `fail`. */
  lemma AtMostOneFail(f: Finished, i: nat, k: nat)
    requires Ran(f) && !f.complete && End(f).record.Some?
    requires forall a, b | 0 <= a < b < |SetupOf(f).ids| :: SetupOf(f).ids[a] != SetupOf(f).ids[b]
    requires IsNode(f, i) && NodeStatus(f, i) == StatusFail
    requires IsNode(f, k) && NodeStatus(f, k) == StatusFail
    ensures i == k
  {
    TornDownStatus(f, i);
    TornDownStatus(f, k);
    ScheduleFaithful(f.workflows, f.parsed, f.slots, |f.workflows|);
  }

  /** No dispatched job that is marked cancelled keeps a step that reads as failed or running. */
  lemma CancelledStepsHonest(f: Finished, i: nat, job: Job, step: JobStep)
    requires Ran(f) && IsNode(f, i) && i in End(f).queue.Dispatched()
    requires Mapped(f, i, job).status == StatusCancelled && step in Mapped(f, i, job).steps
    ensures step.status != StatusFail && step.status != StatusRunning
  {
    EndFacts(f, i);
    var cancelled := CancelledSteps(job.steps, |job.steps|);
    assert Mapped(f, i, job).steps == cancelled;
    var k :| 0 <= k < |cancelled| && cancelled[k] == step;
  }

  /** In complete mode every failed job is reported as failed, and nothing is cancelled on account of a failure. */
  lemma CompleteModeKeepsFailures(f: Finished, i: nat)
    requires Ran(f) && IsNode(f, i) && f.complete && i in End(f).ended
    ensures End(f).ended[i].result == Failure ==> NodeStatus(f, i) == StatusFail
    ensures NodeStatus(f, i) == StatusCancelled ==> End(f).userCancelled
  {
    EndFacts(f, i);
    ReachedInv(SetupOf(f), f.steps);
    assert i in End(f).queue.Dispatched();
  }
}
