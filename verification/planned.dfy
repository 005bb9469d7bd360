/** Planned steps that left no evidence (engine.go:626-648, reconcilePlannedSteps). */
module Planned {
  import opened Model
  import opened Collector
  import Mask

  /** `strings.Contains`. */
  predicate Contains(s: string, t: string) { t <= s || (s != "" && Contains(s[1..], t)) }

  /** A planned step that is shown under its own name: the name is there and is no template. */
  predicate Nameable(name: string) { name != "" && !Contains(name, "${{") }

  function SkippedStep(name: string): JobStep { JobStep(name, StatusSkip, None, None, 0) }

  /** The steps added for names that are not known. */
  function Missing(known: set<string>, names: seq<string>): seq<JobStep> {
    if names == [] then []
    else
      var before, name := Missing(known, names[..|names| - 1]), names[|names| - 1];
      if Nameable(name) && name !in known then before + [SkippedStep(name)] else before
  }

  function Trimmed(texts: seq<string>): seq<string> { seq(|texts|, k requires 0 <= k < |texts| => Mask.TrimSpace(texts[k])) }

  function StepNamesOf(steps: seq<JobStep>): seq<string> { seq(|steps|, k requires 0 <= k < |steps| => steps[k].name) }

  function KnownNames(steps: seq<JobStep>): set<string> { Members(Trimmed(StepNamesOf(steps))) }

  function Members(names: seq<string>): set<string> { set name | name in names }

  function Reconciled(job: Job, planned: seq<string>): Job {
    job.(steps := job.steps + Missing(KnownNames(job.steps), Trimmed(planned)))
  }

  /** Lines 636-646. */
  method AddMissing(steps: seq<JobStep>, known: set<string>, names: seq<string>) returns (after: seq<JobStep>)
    ensures after == steps + Missing(known, names)
  {
    after := steps;
    for k := 0 to |names|
      invariant after == steps + Missing(known, names[..k])
    {
      assert names[..k + 1][..k] == names[..k];
      if Nameable(names[k]) && names[k] !in known {
        after := after + [SkippedStep(names[k])];
      }
    }
    assert names[..|names|] == names;
  }

  /** Only selected jobs of which something was collected are touched. */
  function Expected(history: seq<Logged>, selected: set<string>, planned: map<string, seq<string>>, job: Job): Job
    requires selected <= planned.Keys
  {
    if job.id in selected && job.id in Jobs(history) then Reconciled(job, planned[job.id]) else job
  }

  lemma CollectedMeans(history: seq<Logged>)
    ensures forall id :: id in Jobs(history) <==> exists r | r in history :: r.job == id
  {
    forall id ensures id in Jobs(history) <==> exists r | r in history :: r.job == id {
      if r :| r in history && r.job == id {
        var k :| 0 <= k < |history| && history[k] == r;
        assert history[k].job in Jobs(history);
      }
    }
  }

  method ReconcileOne(job: Job, planned: map<string, seq<string>>, selected: set<string>, collector: LogCollector) returns (after: Job)
    requires selected <= planned.Keys && collector.Noted()
    ensures after == Expected(collector.history, selected, planned, job)
  {
    var has := collector.HasJob(job.id);
    if job.id !in selected || !has {
      return job;
    }
    var steps := AddMissing(job.steps, KnownNames(job.steps), Trimmed(planned[job.id]));
    return job.(steps := steps);
  }

  method ReconcilePlannedSteps(jobs: array<Job>, planned: map<string, seq<string>>, selected: set<string>, collector: LogCollector)
    requires selected <= planned.Keys && collector.Noted()
    modifies jobs
    ensures forall j | 0 <= j < jobs.Length :: jobs[j] == Expected(collector.history, selected, planned, old(jobs[j]))
    ensures forall j | 0 <= j < jobs.Length && (old(jobs[j]).id !in selected || forall r | r in collector.history :: r.job != old(jobs[j]).id) ::
              jobs[j] == old(jobs[j])
    ensures forall j | 0 <= j < jobs.Length && old(jobs[j]).id in selected && (exists r | r in collector.history :: r.job == old(jobs[j]).id) ::
              jobs[j] == old(jobs[j]).(steps := old(jobs[j]).steps + Missing(KnownNames(old(jobs[j]).steps), Trimmed(planned[old(jobs[j]).id])))
  {
    CollectedMeans(collector.history);
    for j := 0 to jobs.Length
      invariant collector.Noted()
      invariant forall k | 0 <= k < j :: jobs[k] == Expected(collector.history, selected, planned, old(jobs[k]))
      invariant forall k | j <= k < jobs.Length :: jobs[k] == old(jobs[k])
    {
      jobs[j] := ReconcileOne(jobs[j], planned, selected, collector);
    }
  }

  /** What is added: skipped steps, each for a nameable planned step that was not known. */
  lemma {:induction false} MissingAreSkipped(known: set<string>, names: seq<string>)
    ensures forall step | step in Missing(known, names) ::
              step == SkippedStep(step.name) && Nameable(step.name) && step.name !in known && step.name in names
    ensures forall name | name in names && Nameable(name) && name !in known :: SkippedStep(name) in Missing(known, names)
  {
    if names != [] {
      MissingAreSkipped(known, names[..|names| - 1]);
      assert names == names[..|names| - 1] + [names[|names| - 1]];
    }
  }

  lemma StepKnown(steps: seq<JobStep>, k: nat, step: JobStep)
    requires k < |steps| && steps[k] == step
    ensures Mask.TrimSpace(step.name) in KnownNames(steps)
  {
    assert Trimmed(StepNamesOf(steps))[k] == Mask.TrimSpace(step.name);
  }

  /** A name is known if it is that of a step, but for the white space around it. */
  lemma KnownMeans(steps: seq<JobStep>, name: string)
    ensures name in KnownNames(steps) <==> exists step | step in steps :: Mask.TrimSpace(step.name) == name
  {
    if step :| step in steps && Mask.TrimSpace(step.name) == name {
      var k: nat :| k < |steps| && steps[k] == step;
      StepKnown(steps, k, step);
    }
    if name in KnownNames(steps) {
      var k: nat :| k < |steps| && Trimmed(StepNamesOf(steps))[k] == name;
      assert steps[k] in steps;
    }
  }

  /** Names stay known when steps are added, and the added steps are known. */
  lemma KnownGrows(steps: seq<JobStep>, more: seq<JobStep>, name: string)
    requires name in KnownNames(steps)
    ensures name in KnownNames(steps + more)
  {
    var k: nat :| k < |steps| && Trimmed(StepNamesOf(steps))[k] == name;
    StepKnown(steps + more, k, steps[k]);
  }

  lemma AddedKnown(steps: seq<JobStep>, more: seq<JobStep>, step: JobStep)
    requires step in more
    ensures Mask.TrimSpace(step.name) in KnownNames(steps + more)
  {
    var k: nat :| k < |more| && more[k] == step;
    StepKnown(steps + more, |steps| + k, step);
  }

  lemma TrimmedMember(planned: seq<string>, name: string)
    requires name in Trimmed(planned)
    ensures Mask.TrimSpace(name) == name
  {
    var k: nat :| k < |planned| && Trimmed(planned)[k] == name;
    Mask.TrimIdempotent(planned[k]);
  }

  lemma KnownAfter(steps: seq<JobStep>, known: set<string>, planned: seq<string>, name: string)
    requires known == KnownNames(steps) && name in Trimmed(planned) && Nameable(name)
    ensures name in KnownNames(steps + Missing(known, Trimmed(planned)))
  {
    var more := Missing(known, Trimmed(planned));
    if name in known {
      KnownGrows(steps, more, name);
    } else {
      MissingAreSkipped(known, Trimmed(planned));
      TrimmedMember(planned, name);
      AddedKnown(steps, more, SkippedStep(name));
    }
  }

  /**
   After reconciling, the executed steps stand first and as they were, every nameable planned step is
   shown, and what was added is skipped: no step that left no evidence reads as run.
   */
  lemma PlannedStepsShown(job: Job, planned: seq<string>)
    ensures var after := Reconciled(job, planned);
            && job.steps <= after.steps && after == job.(steps := after.steps)
            && (forall k | |job.steps| <= k < |after.steps| :: after.steps[k] == SkippedStep(after.steps[k].name))
            && (forall name | name in Trimmed(planned) && Nameable(name) :: name in KnownNames(after.steps))
  {
    MissingAreSkipped(KnownNames(job.steps), Trimmed(planned));
    forall name | name in Trimmed(planned) && Nameable(name) ensures name in KnownNames(Reconciled(job, planned).steps) {
      KnownAfter(job.steps, KnownNames(job.steps), planned, name);
    }
  }

  /** Where the planned steps that are added stand in the plan. */
  function AddedAt(known: set<string>, names: seq<string>): seq<nat> {
    if names == [] then []
    else
      var before, name := AddedAt(known, names[..|names| - 1]), names[|names| - 1];
      if Nameable(name) && name !in known then before + [|names| - 1] else before
  }

  lemma {:induction false} ContainsMeans(s: string, t: string)
    ensures Contains(s, t) <==> Mask.Occurs(s, t)
  {
    assert Mask.OccursAt(s, t, 0) <==> t <= s by { assert s[0..] == s; }
    if s != "" {
      ContainsMeans(s[1..], t);
      forall a: nat | a <= |s| - 1 ensures Mask.OccursAt(s[1..], t, a) <==> Mask.OccursAt(s, t, a + 1) {
        assert s[1..][a..] == s[a + 1..];
      }
      if a: nat :| Mask.OccursAt(s, t, a) && a > 0 { assert Mask.OccursAt(s[1..], t, a - 1) <==> Mask.OccursAt(s, t, (a - 1) + 1); }
      if a: nat :| Mask.OccursAt(s[1..], t, a) { assert Mask.OccursAt(s, t, a + 1); }
    } else if a: nat :| Mask.OccursAt(s, t, a) {
      assert a == 0;
    }
  }

  /** A name can be shown if it is not empty and no expression is left in it. */
  lemma NameableMeans(name: string)
    ensures Nameable(name) <==> name != "" && !Mask.Occurs(name, "${{")
  {
    ContainsMeans(name, "${{");
  }

  /**
   The steps added are the planned ones with a name that can be shown and is not known, in the order of the
   plan, as skipped steps that never started.
   */
  lemma {:induction false} MissingMeans(known: set<string>, names: seq<string>)
    ensures var at, added := AddedAt(known, names), Missing(known, names);
            && (forall a, b | 0 <= a < b < |at| :: at[a] < at[b])
            && (forall k: nat :: k in at <==> k < |names| && Nameable(names[k]) && names[k] !in known)
            && |added| == |at|
            && (forall a | 0 <= a < |at| :: at[a] < |names| && added[a] == JobStep(names[at[a]], StatusSkip, None, None, 0))
  {
    if names != [] {
      var init := names[..|names| - 1];
      MissingMeans(known, init);
      var before, at := AddedAt(known, init), AddedAt(known, names);
      forall k: nat ensures k in at <==> k < |names| && Nameable(names[k]) && names[k] !in known {
        if k < |init| { assert init[k] == names[k]; }
        assert k in at <==> k in before || (k == |init| && |at| > |before|);
      }
    }
  }

  lemma {:induction false} NothingMissing(known: set<string>, names: seq<string>)
    requires forall name | name in names && Nameable(name) :: name in known
    ensures Missing(known, names) == []
  {
    if names != [] {
      NothingMissing(known, names[..|names| - 1]);
    }
  }

  /** Reconciling again adds nothing. */
  lemma ReconciledOnce(job: Job, planned: seq<string>)
    ensures Reconciled(Reconciled(job, planned), planned) == Reconciled(job, planned)
  {
    PlannedStepsShown(job, planned);
    NothingMissing(KnownNames(Reconciled(job, planned).steps), Trimmed(planned));
  }
}
