/**
 Flattening the pending jobs of the runnable workflows into queue nodes (engine.go:194-275, 535-557).
 */
module Schedule {
  import opened Model
  import opened Queue
  import opened Protocol
  import opened Blocks

  /** The matrix of a job: none declared, not resolvable, or this many combinations. */
  datatype Matrix = NoStrategy | Unresolvable(maxParallel: int) | Resolved(breadth: nat, maxParallel: int)

  /** A job of act's parsed workflow; `result` is what act has recorded on it. */
  datatype ParsedJob = ParsedJob(uses: string, needs: seq<string>, matrix: Matrix, result: ActResult)

  type ParsedWorkflow = map<string, ParsedJob>

  /**
   `jobWeight`: 1 for a job that act does not know, that calls another workflow, or whose matrix is not
   known; else the largest number no greater than its combinations, its declared limit and the slots.
   */
  function JobWeight(parsed: ParsedWorkflow, id: string, slots: int): (weight: nat)
    ensures 1 <= weight && (weight == 1 || weight <= slots)
    ensures id !in parsed || parsed[id].uses != "" || !parsed[id].matrix.Resolved? ==> weight == 1
    ensures weight > 1 ==> weight <= parsed[id].matrix.breadth && (parsed[id].matrix.maxParallel > 0 ==> weight <= parsed[id].matrix.maxParallel)
    ensures id in parsed && parsed[id].uses == "" && parsed[id].matrix.Resolved? ==>
              weight >= parsed[id].matrix.breadth || (parsed[id].matrix.maxParallel > 0 && weight >= parsed[id].matrix.maxParallel) || weight >= slots
  {
    if id !in parsed || parsed[id].uses != "" || parsed[id].matrix.NoStrategy? then 1
    else if parsed[id].matrix.Unresolvable? || parsed[id].matrix.breadth <= 1 then 1
    else
      var declared := parsed[id].matrix.maxParallel;
      var breadth := if 0 < declared < parsed[id].matrix.breadth then declared else parsed[id].matrix.breadth;
      var weight := if breadth > slots then slots else breadth;
      if weight < 1 then 1 else weight
  }

  predicate Runnable(w: Workflow) {
    w.triggered && exists j | 0 <= j < |w.jobs| :: w.jobs[j].status == StatusPending
  }

  function PendingJobs(jobs: seq<Job>): seq<Job> {
    if jobs == [] then []
    else
      var init, last := PendingJobs(jobs[..|jobs| - 1]), jobs[|jobs| - 1];
      if last.status == StatusPending then init + [last] else init
  }

  /** The node index of each of the jobs, which follow each other from `base`. */
  function Positions(jobs: seq<Job>, base: nat): map<string, nat> {
    if jobs == [] then map[]
    else Positions(jobs[..|jobs| - 1], base)[jobs[|jobs| - 1].id := base + |jobs| - 1]
  }

  /** The needs that name a scheduled job, as node indices in the order listed. */
  function Edges(needs: seq<string>, position: map<string, nat>): seq<nat> {
    if needs == [] then []
    else
      var init, last := Edges(needs[..|needs| - 1], position), needs[|needs| - 1];
      if last in position then init + [position[last]] else init
  }

  /** The nodes of one workflow: its pending jobs, wired among themselves. */
  function Block(jobs: seq<Job>, position: map<string, nat>, state: nat, parsed: ParsedWorkflow, slots: int): seq<Node> {
    if jobs == [] then []
    else
      var job := jobs[|jobs| - 1];
      Block(jobs[..|jobs| - 1], position, state, parsed, slots) +
      [Node(state, job.id, job.rank, JobWeight(parsed, job.id, slots), Edges(job.needs, position))]
  }

  /** A scheduled workflow: its index in the plan and its parsed form. */
  datatype WorkflowState = WorkflowState(plan: nat, parsed: ParsedWorkflow)

  datatype Scheduled = Scheduled(states: seq<WorkflowState>, nodes: seq<Node>)

  /** The schedule of the first `n` workflows. */
  function ScheduleOf(workflows: seq<Workflow>, parsed: seq<ParsedWorkflow>, slots: int, n: nat): Scheduled
    requires n <= |workflows| == |parsed|
  {
    if n == 0 then Scheduled([], [])
    else
      var s := ScheduleOf(workflows, parsed, slots, n - 1);
      if !Runnable(workflows[n - 1]) then s
      else
        var jobs := PendingJobs(workflows[n - 1].jobs);
        Scheduled(s.states + [WorkflowState(n - 1, parsed[n - 1])],
                  s.nodes + Block(jobs, Positions(jobs, |s.nodes|), |s.states|, parsed[n - 1], slots))
  }

  // ---- what the schedule means ----

  /** Node `i` stands for `job`: a pending job of its workflow, wired to the nodes of the jobs it needs. */
  ghost predicate Describes(workflows: seq<Workflow>, slots: int, s: Scheduled, i: nat, job: Job) {
    && i < |s.nodes| && s.nodes[i].workflowIndex < |s.states|
    && var node, state := s.nodes[i], s.states[s.nodes[i].workflowIndex];
    && state.plan < |workflows|
    && job in workflows[state.plan].jobs && job.status == StatusPending
    && node.jobID == job.id && node.rank == job.rank && node.weight == JobWeight(state.parsed, job.id, slots)
    && forall x: nat :: x in node.needs <==> Supplies(s, i, job, x)
  }

  ghost predicate Described(workflows: seq<Workflow>, slots: int, s: Scheduled, i: nat) {
    exists job :: Describes(workflows, slots, s, i, job)
  }

  /** Node `x` belongs to the workflow of node `i` and `job` lists its job as a need. */
  predicate Supplies(s: Scheduled, i: nat, job: Job, x: nat)
    requires i < |s.nodes|
  {
    x < |s.nodes| && s.nodes[x].workflowIndex == s.nodes[i].workflowIndex && s.nodes[x].jobID in job.needs
  }

  /** Every scheduled workflow is runnable, and each runnable one among the first `n` is scheduled once. */
  ghost predicate StatesFaithful(workflows: seq<Workflow>, parsed: seq<ParsedWorkflow>, n: nat, s: Scheduled) {
    && |workflows| == |parsed|
    && (forall k | 0 <= k < |s.states| ::
          && s.states[k].plan < n <= |workflows| && s.states[k].parsed == parsed[s.states[k].plan]
          && workflows[s.states[k].plan].triggered
          && exists job | job in workflows[s.states[k].plan].jobs :: job.status == StatusPending)
    && (forall k, m | 0 <= k < m < |s.states| :: s.states[k].plan < s.states[m].plan)
  }

  /** Nodes stand for pending jobs, no two for the same one. */
  ghost predicate NodesFaithful(workflows: seq<Workflow>, slots: int, s: Scheduled) {
    && (forall i: nat | i < |s.nodes| :: Described(workflows, slots, s, i))
    && (forall i, x | 0 <= i < x < |s.nodes| :: s.nodes[i].workflowIndex == s.nodes[x].workflowIndex ==> s.nodes[i].jobID != s.nodes[x].jobID)
  }

  /** Every pending job of a triggered workflow among the first `n` has a node. */
  ghost predicate Covers(workflows: seq<Workflow>, slots: int, n: nat, s: Scheduled)
    requires n <= |workflows|
  {
    forall w: nat, job | w < n && workflows[w].triggered && job in workflows[w].jobs && job.status == StatusPending ::
      exists i: nat :: Describes(workflows, slots, s, i, job) && s.states[s.nodes[i].workflowIndex].plan == w
  }

  ghost predicate Faithful(workflows: seq<Workflow>, parsed: seq<ParsedWorkflow>, slots: int, n: nat, s: Scheduled)
    requires n <= |workflows|
  {
    StatesFaithful(workflows, parsed, n, s) && NodesFaithful(workflows, slots, s) && Covers(workflows, slots, n, s)
  }

  lemma {:induction false} PendingJobsMembers(jobs: seq<Job>, job: Job)
    ensures job in PendingJobs(jobs) <==> job in jobs && job.status == StatusPending
  {
    if jobs != [] {
      PendingJobsMembers(jobs[..|jobs| - 1], job);
      assert jobs == jobs[..|jobs| - 1] + [jobs[|jobs| - 1]];
    }
  }

  lemma {:induction false} PendingJobsDistinct(jobs: seq<Job>)
    requires DistinctIDs(jobs)
    ensures DistinctIDs(PendingJobs(jobs))
  {
    if jobs != [] {
      var init, last := jobs[..|jobs| - 1], jobs[|jobs| - 1];
      PendingJobsDistinct(init);
      forall k | 0 <= k < |PendingJobs(init)| ensures PendingJobs(init)[k].id != last.id {
        PendingJobsMembers(init, PendingJobs(init)[k]);
        var m :| 0 <= m < |init| && init[m] == PendingJobs(init)[k];
        assert jobs[m] == init[m];
      }
    }
  }

  lemma {:induction false} PositionAt(jobs: seq<Job>, base: nat, k: nat)
    requires DistinctIDs(jobs) && k < |jobs|
    ensures jobs[k].id in Positions(jobs, base) && Positions(jobs, base)[jobs[k].id] == base + k
  {
    if k < |jobs| - 1 { PositionAt(jobs[..|jobs| - 1], base, k); }
  }

  lemma {:induction false} PositionOf(jobs: seq<Job>, base: nat, id: string)
    requires id in Positions(jobs, base)
    ensures base <= Positions(jobs, base)[id] < base + |jobs| && jobs[Positions(jobs, base)[id] - base].id == id
  {
    if jobs[|jobs| - 1].id != id { PositionOf(jobs[..|jobs| - 1], base, id); }
  }

  lemma {:induction false} EdgesAre(needs: seq<string>, position: map<string, nat>, x: nat)
    ensures x in Edges(needs, position) <==> exists need | need in needs :: need in position && position[need] == x
  {
    if needs != [] {
      EdgesAre(needs[..|needs| - 1], position, x);
      assert needs == needs[..|needs| - 1] + [needs[|needs| - 1]];
    }
  }

  lemma {:induction false} BlockIs(jobs: seq<Job>, position: map<string, nat>, state: nat, parsed: ParsedWorkflow, slots: int)
    ensures |Block(jobs, position, state, parsed, slots)| == |jobs|
    ensures forall k | 0 <= k < |jobs| ::
              Block(jobs, position, state, parsed, slots)[k] ==
              Node(state, jobs[k].id, jobs[k].rank, JobWeight(parsed, jobs[k].id, slots), Edges(jobs[k].needs, position))
  {
    if jobs != [] { BlockIs(jobs[..|jobs| - 1], position, state, parsed, slots); }
  }

  // ---- one more workflow keeps the schedule faithful ----

  /** `t` is `s` with the block of the pending jobs `jobs` of workflow `plan` appended. */
  ghost predicate Extends(s: Scheduled, t: Scheduled, jobs: seq<Job>, plan: nat, parsed: ParsedWorkflow, slots: int) {
    && t.states == s.states + [WorkflowState(plan, parsed)]
    && t.nodes == s.nodes + Block(jobs, Positions(jobs, |s.nodes|), |s.states|, parsed, slots)
  }

  lemma OldNode(workflows: seq<Workflow>, slots: int, s: Scheduled, t: Scheduled, jobs: seq<Job>, plan: nat, parsed: ParsedWorkflow, i: nat, job: Job)
    requires Extends(s, t, jobs, plan, parsed, slots) && Describes(workflows, slots, s, i, job)
    ensures Describes(workflows, slots, t, i, job)
  {
    BlockIs(jobs, Positions(jobs, |s.nodes|), |s.states|, parsed, slots);
    forall x: nat ensures x in t.nodes[i].needs <==> Supplies(t, i, job, x) {
      assert Supplies(s, i, job, x) <==> Supplies(t, i, job, x) by {
        if |s.nodes| <= x < |t.nodes| { assert t.nodes[x].workflowIndex == |s.states|; }
      }
    }
  }

  lemma NewNode(workflows: seq<Workflow>, slots: int, s: Scheduled, t: Scheduled, jobs: seq<Job>, plan: nat, parsed: ParsedWorkflow, k: nat)
    requires Extends(s, t, jobs, plan, parsed, slots) && NodesFaithful(workflows, slots, s)
    requires plan < |workflows| && DistinctIDs(jobs) && k < |jobs|
    requires jobs[k] in workflows[plan].jobs && jobs[k].status == StatusPending
    ensures Describes(workflows, slots, t, |s.nodes| + k, jobs[k])
  {
    var position, i := Positions(jobs, |s.nodes|), |s.nodes| + k;
    BlockIs(jobs, position, |s.states|, parsed, slots);
    assert t.nodes[i].needs == Edges(jobs[k].needs, position);
    forall x: nat ensures x in t.nodes[i].needs <==> Supplies(t, i, jobs[k], x) {
      EdgesAre(jobs[k].needs, position, x);
      assert x < |s.nodes| ==> Described(workflows, slots, s, x) && t.nodes[x] == s.nodes[x];
      if x in t.nodes[i].needs {
        var need :| need in jobs[k].needs && need in position && position[need] == x;
        PositionOf(jobs, |s.nodes|, need);
      } else if |s.nodes| <= x < |t.nodes| {
        PositionAt(jobs, |s.nodes|, x - |s.nodes|);
      }
    }
  }

  lemma ExtendNodes(workflows: seq<Workflow>, slots: int, s: Scheduled, t: Scheduled, jobs: seq<Job>, plan: nat, parsed: ParsedWorkflow)
    requires Extends(s, t, jobs, plan, parsed, slots) && NodesFaithful(workflows, slots, s)
    requires plan < |workflows| && DistinctIDs(jobs)
    requires forall k | 0 <= k < |jobs| :: jobs[k] in workflows[plan].jobs && jobs[k].status == StatusPending
    ensures NodesFaithful(workflows, slots, t)
  {
    BlockIs(jobs, Positions(jobs, |s.nodes|), |s.states|, parsed, slots);
    forall i: nat | i < |t.nodes| ensures Described(workflows, slots, t, i) {
      if i < |s.nodes| {
        assert Described(workflows, slots, s, i);
        var job :| Describes(workflows, slots, s, i, job);
        OldNode(workflows, slots, s, t, jobs, plan, parsed, i, job);
      } else {
        NewNode(workflows, slots, s, t, jobs, plan, parsed, i - |s.nodes|);
      }
    }
    forall i, x | 0 <= i < x < |t.nodes| && t.nodes[i].workflowIndex == t.nodes[x].workflowIndex
      ensures t.nodes[i].jobID != t.nodes[x].jobID
    {
      if i < |s.nodes| { assert Described(workflows, slots, s, i); }
    }
  }

  lemma ExtendCovers(workflows: seq<Workflow>, slots: int, n: nat, s: Scheduled, t: Scheduled, jobs: seq<Job>, parsed: ParsedWorkflow)
    requires n < |workflows| && Extends(s, t, jobs, n, parsed, slots)
    requires NodesFaithful(workflows, slots, s) && Covers(workflows, slots, n, s)
    requires DistinctIDs(jobs) && jobs == PendingJobs(workflows[n].jobs)
    ensures Covers(workflows, slots, n + 1, t)
  {
    BlockIs(jobs, Positions(jobs, |s.nodes|), |s.states|, parsed, slots);
    forall w: nat, job | w < n + 1 && workflows[w].triggered && job in workflows[w].jobs && job.status == StatusPending
      ensures exists i: nat :: Describes(workflows, slots, t, i, job) && t.states[t.nodes[i].workflowIndex].plan == w
    {
      if w < n {
        var i: nat :| Describes(workflows, slots, s, i, job) && s.states[s.nodes[i].workflowIndex].plan == w;
        OldNode(workflows, slots, s, t, jobs, n, parsed, i, job);
      } else {
        PendingJobsMembers(workflows[n].jobs, job);
        var k: nat :| k < |jobs| && jobs[k] == job;
        NewNode(workflows, slots, s, t, jobs, n, parsed, k);
        assert t.states[t.nodes[|s.nodes| + k].workflowIndex].plan == w;
      }
    }
  }

  /** Workflows without pending jobs or not triggered add nothing to cover. */
  lemma SkipCovers(workflows: seq<Workflow>, slots: int, n: nat, s: Scheduled)
    requires n < |workflows| && Covers(workflows, slots, n, s) && !Runnable(workflows[n])
    ensures Covers(workflows, slots, n + 1, s)
  {
    forall w: nat, job | w < n + 1 && workflows[w].triggered && job in workflows[w].jobs && job.status == StatusPending
      ensures exists i: nat :: Describes(workflows, slots, s, i, job) && s.states[s.nodes[i].workflowIndex].plan == w
    {
      var j: nat :| j < |workflows[w].jobs| && workflows[w].jobs[j] == job;
      assert Runnable(workflows[w]);
      assert w < n;
    }
  }

  lemma PendingJobsOf(jobs: seq<Job>)
    requires DistinctIDs(jobs)
    ensures DistinctIDs(PendingJobs(jobs))
    ensures forall k | 0 <= k < |PendingJobs(jobs)| :: PendingJobs(jobs)[k] in jobs && PendingJobs(jobs)[k].status == StatusPending
  {
    PendingJobsDistinct(jobs);
    forall k | 0 <= k < |PendingJobs(jobs)|
      ensures PendingJobs(jobs)[k] in jobs && PendingJobs(jobs)[k].status == StatusPending
    {
      PendingJobsMembers(jobs, PendingJobs(jobs)[k]);
    }
  }

  lemma ExtendStates(workflows: seq<Workflow>, parsed: seq<ParsedWorkflow>, n: nat, s: Scheduled, t: Scheduled)
    requires n < |workflows| == |parsed| && Runnable(workflows[n]) && StatesFaithful(workflows, parsed, n, s)
    requires t.states == s.states + [WorkflowState(n, parsed[n])]
    ensures StatesFaithful(workflows, parsed, n + 1, t)
  {
    var j :| 0 <= j < |workflows[n].jobs| && workflows[n].jobs[j].status == StatusPending;
    assert workflows[n].jobs[j] in workflows[n].jobs;
  }

  lemma ExtendFaithful(workflows: seq<Workflow>, parsed: seq<ParsedWorkflow>, slots: int, n: nat, s: Scheduled, t: Scheduled)
    requires n < |workflows| == |parsed| && DistinctIDs(workflows[n].jobs) && Runnable(workflows[n])
    requires Faithful(workflows, parsed, slots, n, s)
    requires Extends(s, t, PendingJobs(workflows[n].jobs), n, parsed[n], slots)
    ensures Faithful(workflows, parsed, slots, n + 1, t)
  {
    PendingJobsOf(workflows[n].jobs);
    ExtendStates(workflows, parsed, n, s, t);
    ExtendNodes(workflows, slots, s, t, PendingJobs(workflows[n].jobs), n, parsed[n]);
    ExtendCovers(workflows, slots, n, s, t, PendingJobs(workflows[n].jobs), parsed[n]);
  }

  lemma RunnableStep(workflows: seq<Workflow>, parsed: seq<ParsedWorkflow>, slots: int, n: nat)
    requires n < |workflows| == |parsed| && DistinctIDs(workflows[n].jobs) && Runnable(workflows[n])
    requires Faithful(workflows, parsed, slots, n, ScheduleOf(workflows, parsed, slots, n))
    ensures Faithful(workflows, parsed, slots, n + 1, ScheduleOf(workflows, parsed, slots, n + 1))
  {
    ExtendFaithful(workflows, parsed, slots, n, ScheduleOf(workflows, parsed, slots, n), ScheduleOf(workflows, parsed, slots, n + 1));
  }

  lemma SkippedStep(workflows: seq<Workflow>, parsed: seq<ParsedWorkflow>, slots: int, n: nat)
    requires n < |workflows| == |parsed| && !Runnable(workflows[n])
    requires Faithful(workflows, parsed, slots, n, ScheduleOf(workflows, parsed, slots, n))
    ensures Faithful(workflows, parsed, slots, n + 1, ScheduleOf(workflows, parsed, slots, n + 1))
  {
    var s := ScheduleOf(workflows, parsed, slots, n);
    SkipCovers(workflows, slots, n, s);
    assert StatesFaithful(workflows, parsed, n + 1, s) by {
      forall k | 0 <= k < |s.states| ensures exists job | job in workflows[s.states[k].plan].jobs :: job.status == StatusPending {}
    }
  }

  /** The schedule has one node for each pending job of each triggered workflow, wired within the workflow. */
  lemma {:induction false} ScheduleFaithful(workflows: seq<Workflow>, parsed: seq<ParsedWorkflow>, slots: int, n: nat)
    requires n <= |workflows| == |parsed|
    requires forall w | 0 <= w < |workflows| :: DistinctIDs(workflows[w].jobs)
    ensures Faithful(workflows, parsed, slots, n, ScheduleOf(workflows, parsed, slots, n))
  {
    if n > 0 {
      ScheduleFaithful(workflows, parsed, slots, n - 1);
      if Runnable(workflows[n - 1]) {
        RunnableStep(workflows, parsed, slots, n - 1);
      } else {
        SkippedStep(workflows, parsed, slots, n - 1);
      }
    }
  }

  // ---- the order of the nodes ----

  /** Job `left` comes before job `right` in the list. */
  ghost predicate Precedes(jobs: seq<Job>, left: string, right: string) {
    exists p, q :: 0 <= p < q < |jobs| && jobs[p].id == left && jobs[q].id == right
  }

  /** Nodes are in the order of their workflows in the plan, and of their jobs in each workflow. */
  ghost predicate InPlanOrder(workflows: seq<Workflow>, s: Scheduled) {
    && (forall i | 0 <= i < |s.nodes| :: s.nodes[i].workflowIndex < |s.states| && s.states[s.nodes[i].workflowIndex].plan < |workflows|)
    && (forall k, m | 0 <= k < m < |s.states| :: s.states[k].plan < s.states[m].plan)
    && forall i, x | 0 <= i < x < |s.nodes| ::
         if s.nodes[i].workflowIndex == s.nodes[x].workflowIndex
         then Precedes(workflows[s.states[s.nodes[i].workflowIndex].plan].jobs, s.nodes[i].jobID, s.nodes[x].jobID)
         else s.states[s.nodes[i].workflowIndex].plan < s.states[s.nodes[x].workflowIndex].plan
  }

  lemma PrecedesLonger(jobs: seq<Job>, job: Job, left: string, right: string)
    requires Precedes(jobs, left, right)
    ensures Precedes(jobs + [job], left, right)
  {
    var p, q :| 0 <= p < q < |jobs| && jobs[p].id == left && jobs[q].id == right;
    assert (jobs + [job])[p] == jobs[p] && (jobs + [job])[q] == jobs[q];
  }

  /** The pending jobs keep the order of the jobs. */
  lemma {:induction false} PendingInOrder(jobs: seq<Job>)
    ensures forall a, b | 0 <= a < b < |PendingJobs(jobs)| :: Precedes(jobs, PendingJobs(jobs)[a].id, PendingJobs(jobs)[b].id)
  {
    if jobs != [] {
      var init, last := jobs[..|jobs| - 1], jobs[|jobs| - 1];
      var before := PendingJobs(init);
      PendingInOrder(init);
      assert init + [last] == jobs;
      forall a, b | 0 <= a < b < |PendingJobs(jobs)| ensures Precedes(jobs, PendingJobs(jobs)[a].id, PendingJobs(jobs)[b].id) {
        if b < |before| {
          PrecedesLonger(init, last, before[a].id, before[b].id);
        } else {
          PendingJobsMembers(init, before[a]);
          var p :| 0 <= p < |init| && init[p] == before[a];
          assert jobs[p].id == before[a].id && jobs[|jobs| - 1].id == last.id;
        }
      }
    }
  }

  lemma ExtendOrder(workflows: seq<Workflow>, s: Scheduled, t: Scheduled, plan: nat, parsed: ParsedWorkflow, slots: int)
    requires plan < |workflows| && Extends(s, t, PendingJobs(workflows[plan].jobs), plan, parsed, slots)
    requires InPlanOrder(workflows, s) && forall k | 0 <= k < |s.states| :: s.states[k].plan < plan
    ensures InPlanOrder(workflows, t)
  {
    var jobs := PendingJobs(workflows[plan].jobs);
    BlockIs(jobs, Positions(jobs, |s.nodes|), |s.states|, parsed, slots);
    PendingInOrder(workflows[plan].jobs);
    forall x | 0 <= x < |t.nodes|
      ensures if x < |s.nodes| then t.nodes[x] == s.nodes[x] && s.nodes[x].workflowIndex < |s.states|
              else t.nodes[x].workflowIndex == |s.states| && t.nodes[x].jobID == jobs[x - |s.nodes|].id
    {
    }
    assert forall k | 0 <= k < |s.states| :: t.states[k] == s.states[k];
    assert t.states[|s.states|].plan == plan;
  }

  /** `buildSchedule` keeps the order of the plan, by which equal ranks are decided and the first error is chosen. */
  lemma {:induction false} ScheduleInPlanOrder(workflows: seq<Workflow>, parsed: seq<ParsedWorkflow>, slots: int, n: nat)
    requires n <= |workflows| == |parsed|
    ensures var s := ScheduleOf(workflows, parsed, slots, n); InPlanOrder(workflows, s) && forall k | 0 <= k < |s.states| :: s.states[k].plan < n
  {
    if n > 0 {
      ScheduleInPlanOrder(workflows, parsed, slots, n - 1);
      if Runnable(workflows[n - 1]) {
        ExtendOrder(workflows, ScheduleOf(workflows, parsed, slots, n - 1), ScheduleOf(workflows, parsed, slots, n), n - 1, parsed[n - 1], slots);
      }
    }
  }

  // ---- blocking and wiring agree ----

  lemma NodesIndexStates(workflows: seq<Workflow>, slots: int, s: Scheduled)
    requires NodesFaithful(workflows, slots, s)
    ensures forall i | 0 <= i < |s.nodes| :: s.nodes[i].workflowIndex < |s.states|
  {
    forall i | 0 <= i < |s.nodes| ensures s.nodes[i].workflowIndex < |s.states| {
      assert Described(workflows, slots, s, i);
    }
  }

  /** The configuration the queue runs with is well formed: every need index names a node. */
  lemma ScheduleValid(workflows: seq<Workflow>, parsed: seq<ParsedWorkflow>, slots: nat, failFast: bool, n: nat)
    requires n <= |workflows| == |parsed| && slots >= 1
    requires forall w | 0 <= w < |workflows| :: DistinctIDs(workflows[w].jobs)
    ensures Config(ScheduleOf(workflows, parsed, slots, n).nodes, slots, failFast).Valid()
  {
    ScheduleFaithful(workflows, parsed, slots, n);
    var s := ScheduleOf(workflows, parsed, slots, n);
    forall i: nat, need: nat | i < |s.nodes| && need in s.nodes[i].needs ensures need < |s.nodes| {
      assert Described(workflows, slots, s, i);
    }
  }

  /**
   After dependency blocking, a need of a scheduled job that exists in the job's workflow is itself a
   scheduled node, so wiring drops only needs that name no job at all.
   */
  lemma BlockingAndWiringAgree(workflows: seq<Workflow>, parsed: seq<ParsedWorkflow>, slots: int, i: nat, job: Job, d: nat)
    requires |workflows| == |parsed|
    requires forall w | 0 <= w < |workflows| :: DistinctIDs(workflows[w].jobs) && Stable(workflows[w].jobs)
    requires Describes(workflows, slots, ScheduleOf(workflows, parsed, slots, |workflows|), i, job)
    requires var s := ScheduleOf(workflows, parsed, slots, |workflows|);
             var jobs := workflows[s.states[s.nodes[i].workflowIndex].plan].jobs;
             d < |jobs| && jobs[d].id in job.needs
    ensures var s := ScheduleOf(workflows, parsed, slots, |workflows|);
            var jobs := workflows[s.states[s.nodes[i].workflowIndex].plan].jobs;
            exists x: nat | x < |s.nodes| :: s.nodes[x].jobID == jobs[d].id && x in s.nodes[i].needs
  {
    ScheduleFaithful(workflows, parsed, slots, |workflows|);
    var s := ScheduleOf(workflows, parsed, slots, |workflows|);
    var state := s.nodes[i].workflowIndex;
    var plan := s.states[state].plan;
    var jobs := workflows[plan].jobs;
    var k: nat :| k < |jobs| && jobs[k] == job;
    assert BlocksOn(jobs, k, d) <==> jobs[d].status != StatusPending;
    assert jobs[d].status == StatusPending;
    var x: nat :| Describes(workflows, slots, s, x, jobs[d]) && s.states[s.nodes[x].workflowIndex].plan == plan;
    assert s.nodes[x].workflowIndex == state;
    assert Supplies(s, i, job, x);
  }

  // ---- the loops ----

  /** The block of the jobs when only the first `m` have been given their needs. */
  function PartBlock(jobs: seq<Job>, position: map<string, nat>, state: nat, parsed: ParsedWorkflow, slots: int, m: nat): seq<Node> {
    seq(|jobs|, k requires 0 <= k < |jobs| =>
      Node(state, jobs[k].id, jobs[k].rank, JobWeight(parsed, jobs[k].id, slots),
           if k < m then Edges(jobs[k].needs, position) else []))
  }

  lemma PartBlockDone(jobs: seq<Job>, position: map<string, nat>, state: nat, parsed: ParsedWorkflow, slots: int)
    ensures PartBlock(jobs, position, state, parsed, slots, |jobs|) == Block(jobs, position, state, parsed, slots)
  {
    BlockIs(jobs, position, state, parsed, slots);
  }

  lemma PositionsAppend(jobs: seq<Job>, job: Job, base: nat)
    ensures Positions(jobs + [job], base) == Positions(jobs, base)[job.id := base + |jobs|]
  {
    assert (jobs + [job])[..|jobs|] == jobs;
  }

  /** The bare block grows by one bare node. */
  lemma BareBlockAppend(jobs: seq<Job>, job: Job, state: nat, parsed: ParsedWorkflow, slots: int)
    ensures PartBlock(jobs + [job], map[], state, parsed, slots, 0) ==
            PartBlock(jobs, map[], state, parsed, slots, 0) +
            [Node(state, job.id, job.rank, JobWeight(parsed, job.id, slots), [])]
  {}

  /** Giving node `m` of the block that follows `front` its needs. */
  lemma PartBlockWire(front: seq<Node>, jobs: seq<Job>, position: map<string, nat>, state: nat, parsed: ParsedWorkflow, slots: int, m: nat)
    requires m < |jobs|
    ensures var nodes := front + PartBlock(jobs, position, state, parsed, slots, m);
            nodes[|front| + m := nodes[|front| + m].(needs := Edges(jobs[m].needs, position))] ==
            front + PartBlock(jobs, position, state, parsed, slots, m + 1)
  {}

  lemma {:induction false} PendingPrefix(jobs: seq<Job>, k: nat)
    requires k < |jobs|
    ensures PendingJobs(jobs[..k]) <= PendingJobs(jobs[..k + 1]) <= PendingJobs(jobs)
    ensures PendingJobs(jobs[..k + 1]) ==
            if jobs[k].status == StatusPending then PendingJobs(jobs[..k]) + [jobs[k]] else PendingJobs(jobs[..k])
  {
    assert jobs[..k + 1][..k] == jobs[..k];
    if k + 1 < |jobs| {
      PendingPrefix(jobs[..|jobs| - 1], k);
      assert jobs[..|jobs| - 1][..k] == jobs[..k] && jobs[..|jobs| - 1][..k + 1] == jobs[..k + 1];
    } else {
      assert jobs[..k + 1] == jobs;
    }
  }

  /** Lines 216-221. */
  method SelectJobs(jobs: seq<Job>) returns (selected: set<string>)
    requires DistinctIDs(jobs)
    ensures forall k | 0 <= k < |jobs| :: jobs[k].id in selected <==> jobs[k].status == StatusPending
  {
    selected := {};
    for k := 0 to |jobs|
      invariant forall id | id in selected :: exists m | 0 <= m < k :: jobs[m].id == id
      invariant forall m | 0 <= m < k :: jobs[m].id in selected <==> jobs[m].status == StatusPending
    {
      if jobs[k].status == StatusPending {
        selected := selected + {jobs[k].id};
      }
    }
  }

  /** Lines 247-260: one node for each selected job, without needs yet. */
  method AddNodes(jobs: seq<Job>, selected: set<string>, nodes: seq<Node>, state: nat, parsed: ParsedWorkflow, slots: int)
    returns (added: seq<Node>, nodeIndex: map<string, nat>)
    requires forall k | 0 <= k < |jobs| :: jobs[k].id in selected <==> jobs[k].status == StatusPending
    ensures nodeIndex == Positions(PendingJobs(jobs), |nodes|)
    ensures added == nodes + PartBlock(PendingJobs(jobs), nodeIndex, state, parsed, slots, 0)
  {
    added, nodeIndex := nodes, map[];
    for k := 0 to |jobs|
      invariant nodeIndex == Positions(PendingJobs(jobs[..k]), |nodes|)
      invariant added == nodes + PartBlock(PendingJobs(jobs[..k]), map[], state, parsed, slots, 0)
    {
      PendingPrefix(jobs, k);
      if jobs[k].id in selected {
        added, nodeIndex := AddNode(jobs[k], PendingJobs(jobs[..k]), nodes, added, nodeIndex, state, parsed, slots);
      }
    }
    assert jobs[..|jobs|] == jobs;
    assert PartBlock(PendingJobs(jobs), map[], state, parsed, slots, 0) == PartBlock(PendingJobs(jobs), nodeIndex, state, parsed, slots, 0);
  }

  /** Lines 253-259 for one selected job; `before` are the pending jobs ahead of it. */
  method AddNode(job: Job, ghost before: seq<Job>, ghost nodes: seq<Node>, sofar: seq<Node>, positions: map<string, nat>,
                 state: nat, parsed: ParsedWorkflow, slots: int)
    returns (added: seq<Node>, nodeIndex: map<string, nat>)
    requires positions == Positions(before, |nodes|)
    requires sofar == nodes + PartBlock(before, map[], state, parsed, slots, 0)
    ensures nodeIndex == Positions(before + [job], |nodes|)
    ensures added == nodes + PartBlock(before + [job], map[], state, parsed, slots, 0)
  {
    PositionsAppend(before, job, |nodes|);
    BareBlockAppend(before, job, state, parsed, slots);
    assert |sofar| == |nodes| + |before|;
    nodeIndex := positions[job.id := |sofar|];
    added := sofar + [Node(state, job.id, job.rank, JobWeight(parsed, job.id, slots), [])];
  }

  /** Lines 267-271: the needs of one job that are scheduled. */
  method EdgesOf(needs: seq<string>, nodeIndex: map<string, nat>) returns (edges: seq<nat>)
    ensures edges == Edges(needs, nodeIndex)
  {
    edges := [];
    for k := 0 to |needs|
      invariant edges == Edges(needs[..k], nodeIndex)
    {
      assert needs[..k + 1][..k] == needs[..k];
      if needs[k] in nodeIndex {
        edges := edges + [nodeIndex[needs[k]]];
      }
    }
    assert needs[..|needs|] == needs;
  }

  /** Lines 261-272: gives every node of the workflow its needs. */
  method WireNodes(jobs: seq<Job>, selected: set<string>, front: seq<Node>, nodes: seq<Node>, nodeIndex: map<string, nat>,
                   state: nat, parsed: ParsedWorkflow, slots: int)
    returns (wired: seq<Node>)
    requires DistinctIDs(jobs)
    requires forall k | 0 <= k < |jobs| :: jobs[k].id in selected <==> jobs[k].status == StatusPending
    requires nodeIndex == Positions(PendingJobs(jobs), |front|)
    requires nodes == front + PartBlock(PendingJobs(jobs), nodeIndex, state, parsed, slots, 0)
    ensures wired == front + Block(PendingJobs(jobs), nodeIndex, state, parsed, slots)
  {
    wired := nodes;
    PendingJobsOf(jobs);
    for k := 0 to |jobs|
      invariant wired == front + PartBlock(PendingJobs(jobs), nodeIndex, state, parsed, slots, |PendingJobs(jobs[..k])|)
    {
      PendingPrefix(jobs, k);
      if jobs[k].id in selected {
        wired := WireNode(jobs, k, front, wired, nodeIndex, state, parsed, slots);
      }
    }
    assert jobs[..|jobs|] == jobs;
    PartBlockDone(PendingJobs(jobs), nodeIndex, state, parsed, slots);
  }

  /** Lines 266-271 for one selected job. */
  method WireNode(jobs: seq<Job>, k: nat, ghost front: seq<Node>, nodes: seq<Node>, nodeIndex: map<string, nat>,
                  ghost state: nat, ghost parsed: ParsedWorkflow, ghost slots: int)
    returns (wired: seq<Node>)
    requires k < |jobs| && DistinctIDs(jobs) && DistinctIDs(PendingJobs(jobs))
    requires |PendingJobs(jobs[..k])| < |PendingJobs(jobs)| && PendingJobs(jobs)[|PendingJobs(jobs[..k])|] == jobs[k]
    requires nodeIndex == Positions(PendingJobs(jobs), |front|)
    requires nodes == front + PartBlock(PendingJobs(jobs), nodeIndex, state, parsed, slots, |PendingJobs(jobs[..k])|)
    ensures wired == front + PartBlock(PendingJobs(jobs), nodeIndex, state, parsed, slots, |PendingJobs(jobs[..k])| + 1)
  {
    ghost var m := |PendingJobs(jobs[..k])|;
    PositionAt(PendingJobs(jobs), |front|, m);
    PartBlockWire(front, PendingJobs(jobs), nodeIndex, state, parsed, slots, m);
    var edges := EdgesOf(jobs[k].needs, nodeIndex);
    var current := nodeIndex[jobs[k].id];
    wired := nodes[current := nodes[current].(needs := edges)];
  }

  /** What act parsed from each file; a file that could not be opened or parsed stands for nothing. */
  function Parsed(files: seq<Option<ParsedWorkflow>>): seq<ParsedWorkflow> {
    seq(|files|, w requires 0 <= w < |files| => if files[w].Some? then files[w].value else map[])
  }

  /** `buildSchedule`: fails iff a runnable workflow cannot be read, and otherwise builds the schedule. */
  method BuildSchedule(workflows: seq<Workflow>, files: seq<Option<ParsedWorkflow>>, slots: int) returns (result: Option<Scheduled>)
    requires |files| == |workflows|
    requires forall w | 0 <= w < |workflows| :: DistinctIDs(workflows[w].jobs)
    ensures result.None? <==> exists w, job | 0 <= w < |workflows| && job in workflows[w].jobs ::
              workflows[w].triggered && job.status == StatusPending && files[w].None?
    ensures result.Some? ==> result.value == ScheduleOf(workflows, Parsed(files), slots, |workflows|)
  {
    var states: seq<WorkflowState>, nodes: seq<Node> := [], [];
    for index := 0 to |workflows|
      invariant Scheduled(states, nodes) == ScheduleOf(workflows, Parsed(files), slots, index)
      invariant forall w | 0 <= w < index :: !(Runnable(workflows[w]) && files[w].None?)
    {
      var jobs := workflows[index].jobs;
      if Runnable(workflows[index]) {
        if files[index].None? {
          ghost var j :| 0 <= j < |jobs| && jobs[j].status == StatusPending;
          assert jobs[j] in workflows[index].jobs;
          return None;
        }
        var parsed := files[index].value;
        var selected := SelectJobs(jobs);
        var added, nodeIndex := AddNodes(jobs, selected, nodes, |states|, parsed, slots);
        nodes := WireNodes(jobs, selected, nodes, added, nodeIndex, |states|, parsed, slots);
        states := states + [WorkflowState(index, parsed)];
      }
    }
    result := Some(Scheduled(states, nodes));
  }
}