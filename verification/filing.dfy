/**
 From the entries that are logged to the verdict: which entry made the record that stopped a run, and
 when a green verdict can be trusted on account of how entries are filed (logging.go:71-96, 143-147;
 engine.go:223-227, 407-470).
 */
module Filing {
  import opened Model
  import opened Queue
  import opened Protocol
  import opened Schedule
  import opened Outcomes
  import opened Verdict
  import opened Honesty
  import Collector

  /** A collector as the engine builds it for one workflow. */
  datatype Built = Built(
    wiring: Collector.Wiring, topLevel: set<string>, callers: set<string>, children: map<string, set<string>>, order: seq<string>)
  {
    ghost predicate Wired() { Collector.Wired(wiring, topLevel, callers, children, order) }

    predicate Traceable(entry: Collector.Entry) { Collector.Traceable(wiring, topLevel, callers, children, entry) }
  }

  /** The scheduled jobs of the `k`th scheduled workflow. */
  function Selected(s: Scheduled, k: nat): set<string> {
    set x | 0 <= x < |s.nodes| && s.nodes[x].workflowIndex == k :: s.nodes[x].jobID
  }

  ghost predicate BuiltFor(f: Finished, built: seq<Built>)
    requires Planned(f)
  {
    && |built| == |Sched(f).states|
    && forall k | 0 <= k < |built| :: built[k].Wired() && built[k].wiring.knownJobs == Selected(Sched(f), k)
  }

  /** Every failure that collectors reported came from an entry, filed as its collector files it. */
  ghost predicate FromEntries(f: Finished, built: seq<Built>, entries: seq<Collector.Entry>)
    requires Ran(f)
  {
    && BuiltFor(f, built) && |entries| == |f.steps|
    && forall n | 0 <= n < |f.steps| && f.steps[n].LogFailure? :: Filed(f, built, entries[n], f.steps[n])
  }

  ghost predicate Filed(f: Finished, built: seq<Built>, entry: Collector.Entry, step: Step)
    requires Ran(f) && BuiltFor(f, built) && step.LogFailure?
  {
    && IsNode(f, step.node)
    && step.jobID == built[Sched(f).nodes[step.node].workflowIndex].wiring.JobOf(entry)
    && Collector.ReportsFailure(entry, step.jobID)
  }

  // ---- the step that made the record ----

  ghost predicate Records(setup: Setup, step: Step, first: FirstFailure)
    requires setup.Valid()
  {
    match step
    case LogFailure(i, jobID) => i < setup.cfg.N() && first == FirstFailure(setup.WorkflowID(i), jobID)
    case NodeReturns(i, end) =>
      i < setup.cfg.N() && end.result == Failure && first == FirstFailure(setup.WorkflowID(i), setup.cfg.nodes[i].jobID)
    case _ => false
  }

  lemma {:induction false} RecordedBy(setup: Setup, steps: seq<Step>) returns (n: nat)
    requires setup.Valid() && Possible(setup, steps) && Reached(setup, steps).record.Some?
    ensures n < |steps| && Records(setup, steps[n], Reached(setup, steps).record.value)
    decreases |steps|
  {
    var before := steps[..|steps| - 1];
    if Reached(setup, before).record.Some? {
      n := RecordedBy(setup, before);
    } else {
      n := |steps| - 1;
    }
  }

  /** A node's end is kept. */
  lemma {:induction false} EndKept(setup: Setup, steps: seq<Step>, n: nat)
    requires setup.Valid() && Possible(setup, steps) && n < |steps| && steps[n].NodeReturns?
    ensures steps[n].node in Reached(setup, steps).ended && Reached(setup, steps).ended[steps[n].node] == steps[n].end
    decreases |steps|
  {
    if n < |steps| - 1 { EndKept(setup, steps[..|steps| - 1], n); }
  }

  // ---- exactly when the recorded failure is named ----

  /** A node of the workflow stands for the job and ended with act result failure or unset. */
  ghost predicate EndedBadly(f: Finished, k: nat, jobID: string)
    requires Ran(f)
  {
    exists x: nat :: IsNode(f, x) && Sched(f).nodes[x].workflowIndex == k && Sched(f).nodes[x].jobID == jobID && BadEnd(f, x)
  }

  ghost predicate BadEnd(f: Finished, x: nat)
    requires Ran(f)
  {
    x in End(f).ended && (End(f).ended[x].result == Failure || End(f).ended[x].result == Unset)
  }

  /**
   The step that made the record accounts for it: a node that failed, or an entry that can be traced to
   a job of the schedule whose node ended with act result failure or unset.
   */
  ghost predicate Accounts(f: Finished, built: seq<Built>, entries: seq<Collector.Entry>, n: nat)
    requires Ran(f) && FromEntries(f, built, entries) && n < |f.steps|
  {
    match f.steps[n]
    case LogFailure(i, jobID) =>
      assert Filed(f, built, entries[n], f.steps[n]);
      var k := Sched(f).nodes[i].workflowIndex;
      built[k].Traceable(entries[n]) && EndedBadly(f, k, jobID)
    case NodeReturns(_, _) => true
    case _ => false
  }

  ghost predicate DistinctWorkflows(f: Finished)
    requires Ran(f)
  {
    forall a, b | 0 <= a < b < |SetupOf(f).ids| :: SetupOf(f).ids[a] != SetupOf(f).ids[b]
  }

  /** A node is the culprit exactly if it is of the recorded workflow and job, and ended badly. */
  lemma CulpritExactly(f: Finished, i: nat, jobID: string, x: nat)
    requires Ran(f) && DistinctWorkflows(f) && IsNode(f, i) && IsNode(f, x)
    requires End(f).record == Some(FirstFailure(SetupOf(f).WorkflowID(i), jobID))
    ensures Culprit(f, x) <==>
            Sched(f).nodes[x].workflowIndex == Sched(f).nodes[i].workflowIndex && Sched(f).nodes[x].jobID == jobID && BadEnd(f, x)
  {
    assert EvidenceOf(f, x).workflowID == SetupOf(f).ids[Sched(f).nodes[x].workflowIndex];
  }

  lemma NamedByNode(f: Finished, n: nat)
    requires Ran(f) && DistinctWorkflows(f) && n < |f.steps| && f.steps[n].NodeReturns? && End(f).record.Some?
    requires Records(SetupOf(f), f.steps[n], End(f).record.value)
    ensures FailureIsNamed(f)
  {
    var i := f.steps[n].node;
    EndKept(SetupOf(f), f.steps, n);
    assert IsNode(f, i);
    CulpritExactly(f, i, Sched(f).nodes[i].jobID, i);
  }

  lemma NamedByEntry(f: Finished, built: seq<Built>, entries: seq<Collector.Entry>, n: nat)
    requires Ran(f) && DistinctWorkflows(f) && FromEntries(f, built, entries) && !f.complete && End(f).record.Some?
    requires n < |f.steps| && f.steps[n].LogFailure? && Records(SetupOf(f), f.steps[n], End(f).record.value)
    ensures FailureIsNamed(f) <==> Accounts(f, built, entries, n)
  {
    var i, jobID := f.steps[n].node, f.steps[n].jobID;
    assert Filed(f, built, entries[n], f.steps[n]);
    var k := Sched(f).nodes[i].workflowIndex;
    var b := built[k];
    Collector.FiledUnderJobExactly(b.wiring, b.topLevel, b.callers, b.children, b.order, entries[n]);
    forall x: nat | IsNode(f, x)
      ensures Culprit(f, x) <==> Sched(f).nodes[x].workflowIndex == k && Sched(f).nodes[x].jobID == jobID && BadEnd(f, x)
    {
      CulpritExactly(f, i, jobID, x);
    }
    if FailureIsNamed(f) {
      var x: nat :| IsNode(f, x) && Culprit(f, x);
      assert jobID in Selected(Sched(f), k);
      assert EndedBadly(f, k, jobID);
    }
    if EndedBadly(f, k, jobID) {
      var x: nat :| IsNode(f, x) && Sched(f).nodes[x].workflowIndex == k && Sched(f).nodes[x].jobID == jobID && BadEnd(f, x);
      assert Culprit(f, x);
    }
  }

  /** The failure that stopped a run is named by the model exactly if the step that recorded it accounts for it. */
  lemma NamedExactly(f: Finished, built: seq<Built>, entries: seq<Collector.Entry>) returns (n: nat)
    requires Ran(f) && DistinctWorkflows(f) && FromEntries(f, built, entries) && !f.complete && End(f).record.Some?
    ensures n < |f.steps| && Records(SetupOf(f), f.steps[n], End(f).record.value)
    ensures FailureIsNamed(f) <==> Accounts(f, built, entries, n)
  {
    n := RecordedBy(SetupOf(f), f.steps);
    if f.steps[n].NodeReturns? {
      NamedByNode(f, n);
    } else {
      NamedByEntry(f, built, entries, n);
    }
  }

  /**
   No false green, from the entries up: if every entry that reports a failure can be traced to a job of
   the schedule whose node ends with act result failure or unset, a `pass` means that every pending job
   was dispatched and ended `pass` or `skip`.
   */
  lemma GreenFromEntries(f: Finished, built: seq<Built>, entries: seq<Collector.Entry>)
    requires Ran(f) && Acyclic(f) && DistinctWorkflows(f) && FromEntries(f, built, entries) && VerdictOf(f) == StatusPass
    requires forall n: nat | n < |f.steps| && f.steps[n].LogFailure? :: Accounts(f, built, entries, n)
    ensures forall w: nat, j: nat | w < |f.workflows| && j < |f.workflows[w].jobs| && f.workflows[w].jobs[j].status == StatusPending ::
              |FinalWorkflow(f, w).jobs| == |f.workflows[w].jobs| && JobRanWell(f, w, j)
  {
    if !f.complete && End(f).record.Some? {
      var n := NamedExactly(f, built, entries);
    }
    NoFalseGreen(f);
  }
}
