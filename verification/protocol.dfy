/**
 The fail-fast protocol around the queue (engine.go:78-104, 125-127, 167-169, 223-227, 375-403):
 job goroutines, log collectors, the user and the event loop act on the first-failure record and on
 the cancellable context in any order. The state machine below takes one such action at a time.
 */
module Protocol {
  import opened Model
  import opened Queue
  import opened Scheduling
  import opened Completeness

  /** The result act leaves on the parsed job. */
  datatype ActResult = Unset | Success | Failure | Skipped

  /** How `executeNode` ends for a node: act's result and the error it returns. */
  datatype NodeEnd = NodeEnd(result: ActResult, err: Option<string>) {
    /** A failed job and a cancelled context both return no error (lines 391-401). */
    predicate Honest() { result == Failure ==> err == None }

    function Reported(): Outcome { Outcome(result == Failure, err) }
  }

  datatype FirstFailure = FirstFailure(workflowID: string, jobID: string)

  /** `failureState.record` (lines 88-98): only the first failure of the run is kept. */
  function Record(record: Option<FirstFailure>, workflowID: string, jobID: string): Option<FirstFailure> {
    if record.Some? then record else Some(FirstFailure(workflowID, jobID))
  }

  /** `failureState` itself. */
  class FailureState {
    var recorded: bool
    var workflowID: string
    var jobID: string

    constructor ()
      ensures Value() == None
    {
      recorded, workflowID, jobID := false, "", "";
    }

    function Value(): Option<FirstFailure>
      reads this
    {
      if recorded then Some(FirstFailure(workflowID, jobID)) else None
    }

    /** Returns whether this call was the first. */
    method RecordFailure(workflow: string, job: string) returns (first: bool)
      modifies this
      ensures Value() == Record(old(Value()), workflow, job)
      ensures first <==> old(Value()) == None
    {
      if recorded {
        return false;
      }
      recorded := true;
      workflowID := workflow;
      jobID := job;
      return true;
    }
  }

  /** The scheduled nodes, the IDs of the workflows they index, and the mode. */
  datatype Setup = Setup(cfg: Config, ids: seq<string>) {
    predicate Valid() {
      cfg.Valid() && forall i | 0 <= i < cfg.N() :: cfg.nodes[i].workflowIndex < |ids|
    }

    function WorkflowID(i: nat): string
      requires Valid() && i < cfg.N()
    {
      ids[cfg.nodes[i].workflowIndex]
    }
  }

  datatype Phase = Dispatching | Receiving

  /**
   `toCancel`: a goroutine has recorded the first failure and not yet called cancelExec.
   `ended`: the nodes whose `executeNode` has returned; their completion may not be received yet.
   */
  datatype RunState = RunState(
    queue: State,
    phase: Phase,
    userCancelled: bool,
    execCancelled: bool,
    toCancel: bool,
    record: Option<FirstFailure>,
    ended: map<nat, NodeEnd>)

  datatype Step =
    | UserCancel                           // the caller's context is cancelled
    | CancelExec                           // execCtx becomes cancelled
    | LogFailure(node: nat, jobID: string) // the collector of the node's workflow reports a failed job
    | NodeReturns(node: nat, end: NodeEnd) // executeNode returns, after recording a failed job
    | Receive(node: nat)                   // the event loop receives a completion
    | Pass                                 // the event loop makes a dispatch pass

  function Initial(setup: Setup): RunState {
    RunState(Start(setup.cfg), Dispatching, false, false, false, None, map[])
  }

  predicate Executing(r: RunState, i: nat) { i in r.queue.inFlight && i !in r.ended }

  predicate Enabled(setup: Setup, r: RunState, step: Step) {
    match step
    case UserCancel => true
    case CancelExec => r.userCancelled || r.toCancel
    case LogFailure(i, _) => i < setup.cfg.N() && Executing(r, i)
    case NodeReturns(i, end) => i < setup.cfg.N() && Executing(r, i) && end.Honest()
    case Receive(i) => r.phase == Receiving && i in r.queue.inFlight && i in r.ended
    case Pass => r.phase == Dispatching
  }

  /** Lines 223-227 and 395-397: recording first obliges the recorder to cancel, unless in complete mode. */
  function Noted(setup: Setup, r: RunState, i: nat, jobID: string): RunState
    requires setup.Valid() && i < setup.cfg.N()
  {
    r.(record := Record(r.record, setup.WorkflowID(i), jobID),
       toCancel := r.toCancel || (r.record == None && setup.cfg.failFast))
  }

  function Apply(setup: Setup, r: RunState, step: Step): RunState
    requires setup.Valid() && Enabled(setup, r, step)
  {
    match step
    case UserCancel => r.(userCancelled := true)
    case CancelExec => r.(execCancelled := true)
    case LogFailure(i, jobID) => Noted(setup, r, i, jobID)
    case NodeReturns(i, end) =>
      var noted := if end.result == Failure then Noted(setup, r, i, setup.cfg.nodes[i].jobID) else r;
      noted.(ended := r.ended[i := end])
    case Receive(i) => r.(queue := Complete(setup.cfg, r.queue, i, r.ended[i].Reported()), phase := Dispatching)
    case Pass => r.(queue := Dispatch(setup.cfg, r.queue, r.execCancelled), phase := Receiving)
  }

  ghost predicate Possible(setup: Setup, steps: seq<Step>)
    requires setup.Valid()
    decreases |steps|, 0
  {
    steps == [] ||
    var before := steps[..|steps| - 1];
    Possible(setup, before) && Enabled(setup, Reached(setup, before), steps[|steps| - 1])
  }

  ghost function Reached(setup: Setup, steps: seq<Step>): RunState
    requires setup.Valid() && Possible(setup, steps)
    decreases |steps|, 1
  {
    if steps == [] then Initial(setup)
    else Apply(setup, Reached(setup, steps[..|steps| - 1]), steps[|steps| - 1])
  }

  /** `runQueue` has returned: it waits for completions and nothing is running. */
  predicate Returned(r: RunState) { r.phase == Receiving && r.queue.inFlight == {} }

  // ---- the joint invariant ----

  /** A cancelled context has a cause, and every failure that has been seen has been recorded. */
  ghost predicate CausesInv(setup: Setup, r: RunState)
    requires setup.Valid()
  {
    && (r.execCancelled ==> r.userCancelled || (r.record.Some? && setup.cfg.failFast))
    && (r.toCancel <==> r.record.Some? && setup.cfg.failFast)
    && (forall i | i in r.ended :: r.ended[i].Honest() && (r.ended[i].result == Failure ==> r.record.Some?))
    && (r.queue.AnyFailed() ==> r.record.Some?)
    && (r.record.Some? ==>
          exists i: nat | i < setup.cfg.N() && i in r.queue.Dispatched() :: r.record.value.workflowID == setup.WorkflowID(i))
  }

  /** What the event loop knows of a node is what its goroutine reported. */
  ghost predicate ReportsInv(r: RunState) {
    && r.ended.Keys <= r.queue.Dispatched()
    && forall i: nat | i in r.queue.completed :: i in r.ended && r.queue.completed[i] == r.ended[i].Reported()
  }

  ghost predicate RunInv(setup: Setup, r: RunState) {
    && setup.Valid()
    && Inv(setup.cfg, r.queue)
    && Grounded(setup.cfg, r.queue)
    && CausesInv(setup, r)
    && ReportsInv(r)
    && (r.phase == Receiving ==> Stopped(setup.cfg, r.queue, r.execCancelled) || NothingFits(setup.cfg, r.queue))
  }

  lemma InitialInv(setup: Setup)
    requires setup.Valid()
    ensures RunInv(setup, Initial(setup))
  {
    StartInv(setup.cfg);
    StartGrounded(setup.cfg);
  }

  lemma NotedInv(setup: Setup, r: RunState, i: nat, jobID: string)
    requires RunInv(setup, r) && i in r.queue.inFlight && i < setup.cfg.N()
    ensures RunInv(setup, Noted(setup, r, i, jobID)) && Noted(setup, r, i, jobID).record.Some?
  {
    assert i in r.queue.Dispatched();
  }

  lemma NodeReturnsInv(setup: Setup, r: RunState, i: nat, end: NodeEnd)
    requires RunInv(setup, r) && Enabled(setup, r, NodeReturns(i, end))
    ensures RunInv(setup, Apply(setup, r, NodeReturns(i, end)))
  {
    if end.result == Failure {
      NotedInv(setup, r, i, setup.cfg.nodes[i].jobID);
    }
  }

  lemma ReceiveInv(setup: Setup, r: RunState, i: nat)
    requires RunInv(setup, r) && Enabled(setup, r, Receive(i))
    ensures RunInv(setup, Apply(setup, r, Receive(i)))
  {
    var q := Complete(setup.cfg, r.queue, i, r.ended[i].Reported());
    CompleteInv(setup.cfg, r.queue, i, r.ended[i].Reported());
    CompleteGrounded(setup.cfg, r.queue, i, r.ended[i].Reported());
    assert q.Dispatched() == r.queue.Dispatched();
  }

  lemma PassInv(setup: Setup, r: RunState)
    requires RunInv(setup, r) && r.phase == Dispatching
    ensures RunInv(setup, Apply(setup, r, Pass))
  {
    GreedyInv(setup.cfg, r.queue);
    DispatchGrounded(setup.cfg, r.queue, r.execCancelled);
    assert r.queue.Dispatched() <= Dispatch(setup.cfg, r.queue, r.execCancelled).Dispatched();
  }

  lemma StepInv(setup: Setup, r: RunState, step: Step)
    requires RunInv(setup, r) && Enabled(setup, r, step)
    ensures RunInv(setup, Apply(setup, r, step))
  {
    match step
    case UserCancel =>
    case CancelExec =>
    case LogFailure(i, jobID) => NotedInv(setup, r, i, jobID);
    case NodeReturns(i, end) => NodeReturnsInv(setup, r, i, end);
    case Receive(i) => ReceiveInv(setup, r, i);
    case Pass => PassInv(setup, r);
  }

  /** The joint protocol invariant holds in every reachable state, whatever the interleaving. */
  lemma {:induction false} ReachedInv(setup: Setup, steps: seq<Step>)
    requires setup.Valid() && Possible(setup, steps)
    ensures RunInv(setup, Reached(setup, steps))
    decreases |steps|
  {
    if steps == [] {
      InitialInv(setup);
    } else {
      ReachedInv(setup, steps[..|steps| - 1]);
      StepInv(setup, Reached(setup, steps[..|steps| - 1]), steps[|steps| - 1]);
    }
  }

  /** Flags only rise and the first record is never replaced. */
  lemma {:induction false} RecordKept(setup: Setup, steps: seq<Step>, more: seq<Step>)
    requires setup.Valid() && Possible(setup, steps + more)
    ensures Possible(setup, steps)
    ensures var r, u := Reached(setup, steps), Reached(setup, steps + more);
            && (r.record.Some? ==> u.record == r.record)
            && (r.execCancelled ==> u.execCancelled) && (r.userCancelled ==> u.userCancelled)
    decreases |more|
  {
    if more == [] {
      assert steps + more == steps;
    } else {
      assert (steps + more)[..|steps + more| - 1] == steps + more[..|more| - 1];
      RecordKept(setup, steps, more[..|more| - 1]);
    }
  }

  /**
   When `runQueue` returns, a node that was never dispatched is explained by a recorded failure in
   fail-fast mode, by the user's cancellation, or by a cycle among its needs; every other node has
   completed.
   */
  lemma UndispatchedExplained(setup: Setup, steps: seq<Step>, i: nat)
    requires setup.Valid() && Possible(setup, steps) && Returned(Reached(setup, steps)) && i < setup.cfg.N()
    ensures var r := Reached(setup, steps);
            && (i in r.queue.Dispatched() ==> i in r.queue.completed && i in r.ended)
            && (i !in r.queue.Dispatched() ==>
                  || (setup.cfg.failFast && r.record.Some?)
                  || r.userCancelled
                  || ReachesCycle(setup.cfg, i))
  {
    var r := Reached(setup, steps);
    ReachedInv(setup, steps);
    if i !in r.queue.Dispatched() && !Stopped(setup.cfg, r.queue, r.execCancelled) {
      IdlePassDrains(setup.cfg, r.queue);
      StuckReachesCycle(setup.cfg, r.queue, i);
    }
  }

  /** Which step puts which failure on record: the first report of a collector or the first failing node, and no other step. */
  lemma StepRecords(setup: Setup, r: RunState, step: Step)
    requires setup.Valid() && Enabled(setup, r, step)
    ensures var u := Apply(setup, r, step);
            && (r.record.Some? ==> u.record == r.record)
            && (r.record.None? && step.LogFailure? ==>
                  u.record == Some(FirstFailure(setup.ids[setup.cfg.nodes[step.node].workflowIndex], step.jobID)))
            && (r.record.None? && step.NodeReturns? && step.end.result == Failure ==>
                  u.record == Some(FirstFailure(setup.ids[setup.cfg.nodes[step.node].workflowIndex], setup.cfg.nodes[step.node].jobID)))
            && (r.record.None? && !step.LogFailure? && !(step.NodeReturns? && step.end.result == Failure) ==> u.record.None?)
            && (u.execCancelled <==> r.execCancelled || step.CancelExec?)
            && (u.userCancelled <==> r.userCancelled || step.UserCancel?)
  {
  }

  /** What `runQueue` returns: each node that was dispatched has the failure and the error its goroutine ended with. */
  lemma ReturnedResults(setup: Setup, steps: seq<Step>, i: nat)
    requires setup.Valid() && Possible(setup, steps) && Returned(Reached(setup, steps)) && i < setup.cfg.N()
    ensures var r := Reached(setup, steps);
            r.queue.ResultOf(i) ==
            if i in r.ended then NodeResult(true, r.ended[i].result == Failure, r.ended[i].err) else NodeResult(false, false, None)
  {
    UndispatchedExplained(setup, steps, i);
    ReachedInv(setup, steps);
  }

  /** In fail-fast mode a record obliges somebody to cancel the run, and nothing but a record or the user's cancellation does. */
  lemma CancelOwed(setup: Setup, steps: seq<Step>)
    requires setup.Valid() && Possible(setup, steps)
    ensures var r := Reached(setup, steps);
            && (Enabled(setup, r, CancelExec) <==> r.userCancelled || (r.record.Some? && setup.cfg.failFast))
            && (r.execCancelled ==> Enabled(setup, r, CancelExec))
  {
    ReachedInv(setup, steps);
  }

  // ---- the event loop inside the protocol is a run of the queue ----

  /** How far `runQueue` has got: before its first pass, between steps, or between a receive and a pass. */
  datatype Progress =
    | NotStarted
    | Waiting(ctxErr: bool, run: seq<Choice>)
    | Received(ctxErr: bool, run: seq<Choice>, index: nat, outcome: Outcome)

  ghost predicate Follows(cfg: Config, r: RunState, p: Progress)
    requires cfg.Valid()
  {
    match p
    case NotStarted => r.phase == Dispatching && r.queue == Start(cfg)
    case Waiting(ctxErr, run) =>
      && r.phase == Receiving && Traced(cfg, r.queue, LastCtxErr(ctxErr, run), ctxErr, run)
      && (LastCtxErr(ctxErr, run) ==> r.execCancelled)
    case Received(ctxErr, run, index, outcome) =>
      && r.phase == Dispatching && Legal(cfg, ctxErr, run)
      && Traced(cfg, After(cfg, ctxErr, run), LastCtxErr(ctxErr, run), ctxErr, run)
      && index in After(cfg, ctxErr, run).inFlight && r.queue == Complete(cfg, After(cfg, ctxErr, run), index, outcome)
      && (LastCtxErr(ctxErr, run) ==> r.execCancelled)
  }

  lemma LastAppended(ctxErr: bool, run: seq<Choice>, c: Choice)
    ensures LastCtxErr(ctxErr, run + [c]) == c.ctxErr
  {
  }

  lemma LaterPassFollows(setup: Setup, r: RunState, p: Progress) returns (p': Progress)
    requires setup.Valid() && r.phase == Dispatching && p.Received? && Follows(setup.cfg, r, p)
    ensures p'.Waiting? && Follows(setup.cfg, Apply(setup, r, Pass), p')
  {
    var c := Choice(p.index, p.outcome, r.execCancelled);
    TracedStep(setup.cfg, After(setup.cfg, p.ctxErr, p.run), LastCtxErr(p.ctxErr, p.run), p.ctxErr, p.run, c);
    LastAppended(p.ctxErr, p.run, c);
    p' := Waiting(p.ctxErr, p.run + [c]);
  }

  lemma PassFollows(setup: Setup, r: RunState, p: Progress) returns (p': Progress)
    requires setup.Valid() && r.phase == Dispatching && Follows(setup.cfg, r, p)
    ensures p'.Waiting? && Follows(setup.cfg, Apply(setup, r, Pass), p')
  {
    if p == NotStarted {
      p' := Waiting(r.execCancelled, []);
    } else {
      p' := LaterPassFollows(setup, r, p);
    }
  }

  lemma ReceiveFollows(setup: Setup, r: RunState, p: Progress, i: nat) returns (p': Progress)
    requires setup.Valid() && Enabled(setup, r, Receive(i)) && Follows(setup.cfg, r, p)
    ensures p'.Received? && Follows(setup.cfg, Apply(setup, r, Receive(i)), p')
  {
    p' := Received(p.ctxErr, p.run, i, r.ended[i].Reported());
  }

  /** No other step concerns the event loop; a context once cancelled stays so. */
  lemma OtherFollows(setup: Setup, r: RunState, p: Progress, step: Step)
    requires setup.Valid() && Enabled(setup, r, step) && !step.Pass? && !step.Receive? && Follows(setup.cfg, r, p)
    ensures Follows(setup.cfg, Apply(setup, r, step), p) && Apply(setup, r, step).phase == r.phase
  {
  }

  /** Every interleaving of the protocol drives the event loop through a legal, sticky run of the queue. */
  lemma {:induction false} QueueRuns(setup: Setup, steps: seq<Step>) returns (p: Progress)
    requires setup.Valid() && Possible(setup, steps)
    ensures Follows(setup.cfg, Reached(setup, steps), p)
    ensures Reached(setup, steps).phase == Receiving ==> p.Waiting?
    decreases |steps|
  {
    if steps == [] {
      p := NotStarted;
    } else {
      p := QueueRuns(setup, steps[..|steps| - 1]);
      var r, step := Reached(setup, steps[..|steps| - 1]), steps[|steps| - 1];
      if step == Pass {
        p := PassFollows(setup, r, p);
      } else if step.Receive? {
        p := ReceiveFollows(setup, r, p, step.node);
      } else {
        OtherFollows(setup, r, p, step);
      }
    }
  }
}
