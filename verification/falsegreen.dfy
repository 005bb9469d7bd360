/**
 A run with a false green verdict, from an ordinary plan: two jobs call the same reusable workflow, so
 its job is claimed twice, has no alias, and there is no fallback either (engine.go:573-624). When it
 fails, the collector records the failure under the child's own name (logging.go:73-81, 143-147) and
 stops the run. No job of the model has that name: the caller that failed reads as cancelled, the
 other one never runs, and the status is `pass`.
 */
module FalseGreenRun {
  import opened Model
  import opened Ranking
  import opened Queue
  import opened Scheduling
  import opened Completeness
  import opened Protocol
  import opened Blocks
  import opened Schedule
  import opened Outcomes
  import opened Verdict
  import opened Honesty
  import Aliases
  import Collector

  const CALLER := Job("a", [], StatusPending, Exact, "", 0.0, None, None, 0, "", [], "")
  const OTHER := CALLER.(id := "b")
  const JOBS := [CALLER, OTHER]
  const PLAN := [Workflow("ci", true, Exact, JOBS)]
  const NODES := [Node(0, "a", 0.0, 1, []), Node(0, "b", 0.0, 1, [])]

  const CALL := ParsedJob("./child.yml", [], NoStrategy, Unset)
  const PARSED: ParsedWorkflow := map["a" := CALL, "b" := CALL]

  /** What act reports for the caller, and what the queue makes of it. */
  const ENDED := NodeEnd(Failure, None)
  const FAILED := Outcome(true, None)

  const STEPS: seq<Step> := [Pass, LogFailure(0, "c"), CancelExec, NodeReturns(0, ENDED), Receive(0), Pass]

  const RUN := Finished(
    PLAN, [PARSED], 1, false, STEPS, [Evidence("ci", PARSED["a" := CALL.(result := Failure)], {"c"})], false, false)

  // ---- the entry behind the recorded failure ----

  const CHILDREN: map<string, set<string>> := map["a" := {"c"}, "b" := {"c"}]
  const WIRING := Collector.Wiring(map[], {"a", "b"}, "")

  /** A step of the child fails in the first caller. */
  const ENTRY := Collector.Entry(1, "c", "", "compile", "failure", false, "exit status 1", [])

  lemma TwoClaimants()
    ensures Aliases.Claimants(CHILDREN, "c") == {"a", "b"} && |Aliases.Claimants(CHILDREN, "c")| == 2
    ensures forall child | child != "c" :: Aliases.Claimants(CHILDREN, child) == {}
  {
    assert "a" != "b";
    assert {"a", "b"} - {"a"} == {"b"};
  }

  /** The collector is wired as the engine wires it, with both callers visited. */
  lemma WiredAsBuilt()
    ensures Collector.Wired(WIRING, {"a", "b"}, {"a", "b"}, CHILDREN, ["a", "b"])
  {
    TwoClaimants();
    assert |{"a", "b"}| == 2 by { assert {"a", "b"} - {"a"} == {"b"}; }
    assert Aliases.Visits(CHILDREN, ["a", "b"]);
    forall child ensures Aliases.Lookup(map[], child) == Aliases.AliasAfter({"a", "b"}, CHILDREN, ["a", "b"], child) {
      Aliases.AliasLaw({"a", "b"}, CHILDREN, ["a", "b"], child);
    }
  }

  /** The child's failure is recorded under the child's name, which is no job of the schedule. */
  lemma FiledUnderChild()
    ensures WIRING.JobOf(ENTRY) == "c" && "c" !in WIRING.knownJobs && Collector.ReportsFailure(ENTRY, "c")
  {
    WiredAsBuilt();
    TwoClaimants();
    Collector.SharedChildIsLost(WIRING, {"a", "b"}, {"a", "b"}, CHILDREN, ["a", "b"], ENTRY);
    assert Collector.Lowered("failure") == "failure";
  }

  /** An entry that names no job at all is filed under the runner, in every collector the engine builds. */
  lemma FiledUnderRunner(w: Collector.Wiring, topLevel: set<string>, callers: set<string>, children: map<string, set<string>>, order: seq<string>)
    requires Collector.Wired(w, topLevel, callers, children, order)
    ensures var entry := ENTRY.(jobID := "");
            w.JobOf(entry) == Collector.RUNNER && Collector.ReportsFailure(entry, Collector.RUNNER)
  {
    Collector.RoutingLaw(w, topLevel, callers, children, order, ENTRY.(jobID := ""));
    assert Collector.Lowered("failure") == "failure";
  }

  // ---- the run ----

  lemma AllPending()
    ensures PendingJobs(JOBS) == JOBS
  {
    assert JOBS[..1] == [CALLER] && [CALLER][..0] == [];
    assert PendingJobs([CALLER]) == [CALLER];
  }

  lemma PlanNodes()
    ensures Block(JOBS, Positions(JOBS, 0), 0, PARSED, 1) == NODES
  {
    BlockIs(JOBS, Positions(JOBS, 0), 0, PARSED, 1);
  }

  lemma PlanSchedule()
    ensures ScheduleOf(PLAN, [PARSED], 1, 1) == Scheduled([WorkflowState(0, PARSED)], NODES)
  {
    AllPending();
    PlanNodes();
    assert PLAN[0].jobs[0].status == StatusPending;
    assert ScheduleOf(PLAN, [PARSED], 1, 0) == Scheduled([], []);
    assert [] + NODES == NODES;
  }

  lemma PlanReady()
    ensures Planned(RUN)
  {
    assert CALLER.id != OTHER.id;
  }

  lemma Plan()
    ensures Planned(RUN)
    ensures Sched(RUN) == Scheduled([WorkflowState(0, PARSED)], NODES)
    ensures SetupOf(RUN) == Setup(Config(NODES, 1, true), ["ci"])
  {
    PlanReady();
    PlanSchedule();
    assert SetupOf(RUN).ids == ["ci"];
  }

  const CFG := Config(NODES, 1, true)
  const QUEUE1 := State([1], {0}, map[])
  const QUEUE2 := State([1], {}, map[0 := FAILED])

  lemma RanksEqual(cfg: Config, s: seq<nat>)
    requires forall i: nat :: cfg.Rank(i) == 0.0
    ensures StableSort(cfg.Rank, s) == s
  {
    SortIdle(cfg, s);
  }

  /** The queue of two nodes of one slot each, without needs and of the same rank, in a pool of one slot. */
  ghost predicate TwoEqual(cfg: Config) {
    && cfg.slots == 1 && cfg.N() == 2 && (forall i: nat :: cfg.Rank(i) == 0.0)
    && (forall i: nat | i < 2 :: cfg.nodes[i].needs == [] && cfg.Cap(i) == 1)
  }

  lemma BothStart(cfg: Config)
    requires TwoEqual(cfg)
    ensures Start(cfg) == State([0, 1], {}, map[])
  {
    assert Roots(cfg, 0) == [] && Roots(cfg, 1) == [0] && Roots(cfg, 2) == [0, 1];
    RanksEqual(cfg, [0, 1]);
  }

  lemma FirstQueue(cfg: Config)
    requires TwoEqual(cfg)
    ensures Dispatch(cfg, Start(cfg), false) == QUEUE1
  {
    BothStart(cfg);
    var s := State([0, 1], {}, map[]);
    LoadEmpty(cfg, 2);
    assert FirstFit(cfg, s, 0) == 0;
    assert Launch(s, 0) == QUEUE1;
    LoadAdd(cfg, 2, {}, 0);
    assert {} + {0} == {0} && Free(cfg, QUEUE1) == 0;
    PassEnd(cfg, QUEUE1);
  }

  lemma SecondQueue(cfg: Config)
    requires TwoEqual(cfg)
    ensures Complete(cfg, QUEUE1, 0, FAILED) == QUEUE2
  {
    var completed: map<nat, Outcome> := map[0 := FAILED];
    assert QUEUE1.completed[0 := FAILED] == completed;
    var done := completed.Keys;
    assert NewlyReady(cfg, done, 0, 0) == [] && NewlyReady(cfg, done, 0, 1) == [] && NewlyReady(cfg, done, 0, 2) == [];
    assert QUEUE1.ready + [] == [1];
    RanksEqual(cfg, [1]);
    assert QUEUE1.inFlight - {0} == {};
  }

  lemma PlanIsTwoEqual(cfg: Config)
    requires cfg == CFG
    ensures TwoEqual(cfg) && cfg.failFast
  {
  }

  lemma Take(setup: Setup, steps: seq<Step>, r: RunState, step: Step, r': RunState)
    requires setup.Valid() && Possible(setup, steps) && Reached(setup, steps) == r
    requires Enabled(setup, r, step) && Apply(setup, r, step) == r'
    ensures Possible(setup, steps + [step]) && Reached(setup, steps + [step]) == r'
  {
    assert (steps + [step])[..|steps|] == steps;
  }

  const RECORD := Some(FirstFailure("ci", "c"))
  const LAST := RunState(QUEUE2, Receiving, false, true, true, RECORD, map[0 := ENDED])

  /** The first three steps for any plan whose first pass starts node 0. */
  lemma FailureInLog(setup: Setup, q: State, jobID: string)
    requires setup.Valid() && setup.cfg.N() > 0 && setup.cfg.failFast
    requires Dispatch(setup.cfg, Start(setup.cfg), false) == q && 0 in q.inFlight
    ensures var steps := [Pass, LogFailure(0, jobID), CancelExec];
            && Possible(setup, steps)
            && Reached(setup, steps) == RunState(q, Receiving, false, true, true, Some(FirstFailure(setup.WorkflowID(0), jobID)), map[])
  {
    var r := RunState(q, Receiving, false, false, false, None, map[]);
    var noted := r.(toCancel := true, record := Some(FirstFailure(setup.WorkflowID(0), jobID)));
    Take(setup, [], Initial(setup), Pass, r);
    Take(setup, [] + [Pass], r, LogFailure(0, jobID), noted);
    Take(setup, [] + [Pass] + [LogFailure(0, jobID)], noted, CancelExec, noted.(execCancelled := true));
    assert [] + [Pass] + [LogFailure(0, jobID)] + [CancelExec] == [Pass, LogFailure(0, jobID), CancelExec];
  }

  /** From there node 0 ends, is received, and the cancelled context stops the next pass. */
  lemma EndsAfterwards(setup: Setup, steps: seq<Step>, r: RunState, q: State)
    requires setup.Valid() && setup.cfg.N() > 0 && Possible(setup, steps) && Reached(setup, steps) == r
    requires r.phase == Receiving && r.execCancelled && r.record.Some? && 0 in r.queue.inFlight && r.ended == map[]
    requires Complete(setup.cfg, r.queue, 0, FAILED) == q
    ensures var more := [NodeReturns(0, ENDED), Receive(0), Pass];
            && Possible(setup, steps + more) && Reached(setup, steps + more) == r.(queue := q, ended := map[0 := ENDED])
  {
    var ended := r.(ended := map[0 := ENDED]);
    Take(setup, steps, r, NodeReturns(0, ENDED), ended);
    Take(setup, steps + [NodeReturns(0, ENDED)], ended, Receive(0), ended.(queue := q, phase := Dispatching));
    Take(setup, steps + [NodeReturns(0, ENDED)] + [Receive(0)], ended.(queue := q, phase := Dispatching), Pass, ended.(queue := q));
    assert steps + [NodeReturns(0, ENDED)] + [Receive(0)] + [Pass] == steps + [NodeReturns(0, ENDED), Receive(0), Pass];
  }

  lemma WholeRun(setup: Setup, q1: State, q2: State, jobID: string, steps: seq<Step>)
    requires setup.Valid() && setup.cfg.N() > 0 && setup.cfg.failFast
    requires Dispatch(setup.cfg, Start(setup.cfg), false) == q1 && 0 in q1.inFlight
    requires Complete(setup.cfg, q1, 0, FAILED) == q2
    requires steps == [Pass, LogFailure(0, jobID), CancelExec] + [NodeReturns(0, ENDED), Receive(0), Pass]
    ensures Possible(setup, steps)
    ensures Reached(setup, steps) ==
            RunState(q2, Receiving, false, true, true, Some(FirstFailure(setup.WorkflowID(0), jobID)), map[0 := ENDED])
  {
    var first := [Pass, LogFailure(0, jobID), CancelExec];
    FailureInLog(setup, q1, jobID);
    EndsAfterwards(setup, first, Reached(setup, first), q2);
  }

  lemma RunOf(f: Finished, setup: Setup, q1: State, q2: State, jobID: string)
    requires Planned(f) && SetupOf(f) == setup && setup.cfg.N() > 0 && setup.cfg.failFast
    requires Dispatch(setup.cfg, Start(setup.cfg), false) == q1 && 0 in q1.inFlight
    requires Complete(setup.cfg, q1, 0, FAILED) == q2
    requires f.steps == [Pass, LogFailure(0, jobID), CancelExec] + [NodeReturns(0, ENDED), Receive(0), Pass]
    ensures Possible(SetupOf(f), f.steps)
    ensures Reached(SetupOf(f), f.steps) ==
            RunState(q2, Receiving, false, true, true, Some(FirstFailure(setup.WorkflowID(0), jobID)), map[0 := ENDED])
  {
    WholeRun(setup, q1, q2, jobID, f.steps);
  }

  /** The state the steps lead to. */
  lemma Interleaving(f: Finished, setup: Setup, steps: seq<Step>)
    requires Planned(f) && SetupOf(f) == setup && TwoEqual(setup.cfg) && setup.cfg.failFast && setup.WorkflowID(0) == "ci"
    requires f.steps == steps == [Pass, LogFailure(0, "c"), CancelExec] + [NodeReturns(0, ENDED), Receive(0), Pass]
    ensures Possible(setup, steps) && Reached(setup, steps) == LAST
  {
    FirstQueue(setup.cfg);
    SecondQueue(setup.cfg);
    RunOf(f, setup, QUEUE1, QUEUE2, "c");
  }

  lemma NoNeedsNoCycle(i: nat)
    requires i < 2
    ensures !ReachesCycle(CFG, i)
  {
    GroundedByNeeds(CFG, {}, i);
  }

  lemma RunReturns()
    ensures Ran(RUN) && End(RUN) == LAST && Sched(RUN).nodes == NODES && SetupOf(RUN).cfg == CFG
  {
    Plan();
    PlanIsTwoEqual(SetupOf(RUN).cfg);
    assert RUN.steps == [Pass, LogFailure(0, "c"), CancelExec] + [NodeReturns(0, ENDED), Receive(0), Pass];
    Interleaving(RUN, SetupOf(RUN), RUN.steps);
  }

  lemma RunEnds()
    ensures Ran(RUN) && Acyclic(RUN) && End(RUN) == LAST && Sched(RUN).nodes == NODES
    ensures !ExecutionErr(RUN)
  {
    RunReturns();
    NoNeedsNoCycle(0);
    NoNeedsNoCycle(1);
    assert Results(RUN) == [NodeResult(true, true, None), NodeResult(false, false, None)];
    assert FirstError(NODES, Results(RUN), 0, PlanJobs(RUN)) == None;
    assert FirstError(NODES, Results(RUN), 1, PlanJobs(RUN)) == None;
  }

  lemma CallerReadsCancelled()
    ensures Ran(RUN) && IsNode(RUN, 0) && 0 in End(RUN).ended && End(RUN).ended[0].result == Failure
    ensures NodeStatus(RUN, 0) == StatusCancelled
  {
    RunEnds();
    assert "c" != "a";
  }

  lemma OtherNeverRan()
    ensures Ran(RUN) && IsNode(RUN, 1) && TornDown(RUN, 1) && 1 !in End(RUN).queue.Dispatched()
  {
    RunEnds();
  }

  lemma NobodyIsNamed()
    ensures Ran(RUN) && !FailureIsNamed(RUN)
  {
    RunEnds();
    assert "c" != "a" && "c" != "b";
  }

  lemma VerdictIsFalse()
    ensures Ran(RUN) && Acyclic(RUN) && FalseGreen(RUN)
  {
    RunEnds();
    OtherNeverRan();
    NobodyIsNamed();
    FalseGreenExactly(RUN);
  }

  /** The verdict of `f` is `pass` although the failure that `entry` reports ended its first node and kept its second from running. */
  ghost predicate GreenDespite(f: Finished, w: Collector.Wiring, entry: Collector.Entry) {
    && Ran(f) && Acyclic(f) && FalseGreen(f)
    && |f.steps| > 1 && f.steps[1] == LogFailure(0, w.JobOf(entry)) && Collector.ReportsFailure(entry, w.JobOf(entry))
    && IsNode(f, 0) && 0 in End(f).ended && End(f).ended[0].result == Failure && NodeStatus(f, 0) == StatusCancelled
    && IsNode(f, 1) && 1 !in End(f).queue.Dispatched()
  }

  lemma Gathered(f: Finished, w: Collector.Wiring, entry: Collector.Entry)
    requires f == RUN && w == WIRING && entry == ENTRY
    ensures GreenDespite(f, w, entry)
  {
    VerdictIsFalse();
    CallerReadsCancelled();
    OtherNeverRan();
    FiledUnderChild();
  }

  /**
   The verdict of this run is `pass`. The entry that reports the child's failure is what the protocol
   records, the caller that failed reads as cancelled, and the other job was never dispatched.
   */
  lemma FalseGreenHappens()
    ensures Collector.Wired(WIRING, {"a", "b"}, {"a", "b"}, CHILDREN, ["a", "b"])
    ensures GreenDespite(RUN, WIRING, ENTRY)
  {
    WiredAsBuilt();
    Gathered(RUN, WIRING, ENTRY);
  }
}
