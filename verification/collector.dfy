/** The log collector (internal/engine/logging.go): routes act's log entries to the jobs of one workflow. */
module Collector {
  import opened Model
  import opened Mask
  import opened StepOrder
  import Aliases
  import LogNames
  import Protocol

  /**
   A log entry as the collector reads it: its field strings, whether its level is error or worse, and
   the masks act has attached to its context. `now` is the time at which `Fire` was entered.
   */
  datatype Entry = Entry(
    now: int, jobID: string, job: string, step: string, stepResult: string,
    errorLevel: bool, message: string, masks: seq<string>)

  /** What reaches the locked part of `Fire`: the routed job and the masked message. */
  datatype Logged = Logged(now: int, job: string, step: string, stepResult: string, message: string)

  /** The name of everything that belongs to no job. */
  const RUNNER := "greenrun"

  /** Lines 73-81 and 94-96: the job an entry belongs to. */
  function Route(aliases: map<string, string>, knownJobs: set<string>, fallback: string, entry: Entry): string {
    var name := if entry.jobID != "" then entry.jobID else entry.job;
    var routed :=
      if name in aliases && aliases[name] != "" then aliases[name]
      else if name != "" && fallback != "" && name !in knownJobs then fallback
      else name;
    if routed == "" then RUNNER else routed
  }

  /** How a collector was built to route entries. */
  datatype Wiring = Wiring(aliases: map<string, string>, knownJobs: set<string>, fallback: string) {
    function JobOf(entry: Entry): string { Route(aliases, knownJobs, fallback, entry) }
  }

  /** What the engine builds a collector with: visited in `order`, the callers leave the aliases. */
  ghost predicate Wired(w: Wiring, topLevel: set<string>, callers: set<string>, children: map<string, set<string>>, order: seq<string>) {
    && children.Keys <= callers <= w.knownJobs <= topLevel && "" !in topLevel
    && (forall caller | caller in children :: "" !in children[caller])
    && Aliases.Visits(children, order) && Aliases.Represents(topLevel, children, order, w.aliases)
    && (if |callers| == 1 then callers == {w.fallback} else w.fallback == "")
  }

  function NameOf(entry: Entry): string { if entry.jobID != "" then entry.jobID else entry.job }

  /**
   The whole routing: a selected job keeps its entries; any other named entry goes to one of the callers
   that claim it if their number is odd, else to the only caller if there is just one, and else stays
   under its own name, where no job finds it.
   */
  lemma RoutingLaw(w: Wiring, topLevel: set<string>, callers: set<string>, children: map<string, set<string>>, order: seq<string>, entry: Entry)
    requires Wired(w, topLevel, callers, children, order)
    ensures var name := if entry.jobID == "" then entry.job else entry.jobID;
            var claimants := Aliases.Claimants(children, name);
            && (name == "" ==> w.JobOf(entry) == "greenrun")
            && (name in w.knownJobs ==> w.JobOf(entry) == name)
            && (name != "" && name !in w.knownJobs ==>
                  if name !in topLevel && |claimants| % 2 == 1 then w.JobOf(entry) in claimants
                  else if |callers| == 1 then callers == {w.JobOf(entry)}
                  else w.JobOf(entry) == name)
  {
    var name := NameOf(entry);
    Aliases.AliasLaw(topLevel, children, order, name);
    assert Aliases.Lookup(w.aliases, name) == Aliases.AliasAfter(topLevel, children, order, name);
  }

  /** The entry can be traced to a job of the schedule; the last case is a job that has the name of the runner. */
  predicate Traceable(w: Wiring, topLevel: set<string>, callers: set<string>, children: map<string, set<string>>, entry: Entry) {
    || NameOf(entry) in w.knownJobs
    || (NameOf(entry) != "" && NameOf(entry) !in topLevel && |Aliases.Claimants(children, NameOf(entry))| % 2 == 1)
    || (NameOf(entry) != "" && |callers| == 1)
    || (NameOf(entry) == "" && RUNNER in w.knownJobs)
  }

  /** When an entry, and so a failure it reports, is filed under a job of the schedule. */
  lemma FiledUnderJobExactly(w: Wiring, topLevel: set<string>, callers: set<string>, children: map<string, set<string>>,
                             order: seq<string>, entry: Entry)
    requires Wired(w, topLevel, callers, children, order)
    ensures w.JobOf(entry) in w.knownJobs <==> Traceable(w, topLevel, callers, children, entry)
  {
    RoutingLaw(w, topLevel, callers, children, order, entry);
    if |callers| == 1 { assert w.fallback in callers; }
  }

  /** A job that several callers share in even number: its entries stay under its own name, where no job finds them. */
  lemma SharedChildIsLost(w: Wiring, topLevel: set<string>, callers: set<string>, children: map<string, set<string>>,
                          order: seq<string>, entry: Entry)
    requires Wired(w, topLevel, callers, children, order)
    requires NameOf(entry) != "" && NameOf(entry) !in topLevel
    requires |Aliases.Claimants(children, NameOf(entry))| >= 2 && |Aliases.Claimants(children, NameOf(entry))| % 2 == 0
    ensures w.JobOf(entry) == NameOf(entry) && w.JobOf(entry) !in w.knownJobs
  {
    RoutingLaw(w, topLevel, callers, children, order, entry);
    var claimants := Aliases.Claimants(children, NameOf(entry));
    assert claimants <= callers;
    if |callers| == 1 { SmallerSet(claimants, callers); }
  }

  lemma SmallerSet(part: set<string>, whole: set<string>)
    requires part <= whole
    ensures |part| <= |whole|
  {
    assert whole == part + (whole - part);
  }

  function Lowered(s: string): string { seq(|s|, k requires 0 <= k < |s| => LogNames.Lower(s[k])) }

  /** The status whose text this is. */
  function FromText(text: string): (status: Status)
    ensures StatusText(status) == text
  {
    if text == "pass" then StatusPass
    else if text == "fail" then StatusFail
    else if text == "partial" then StatusPartial
    else if text == "error" then StatusError
    else if text == "cancelled" then StatusCancelled
    else if text == "skip" then StatusSkip
    else if text == "blocked" then StatusBlocked
    else if text == "remote_only" then StatusRemote
    else if text == "running" then StatusRunning
    else if text == "pending" then StatusPending
    else Other(text)
  }

  function StepStatus(stepResult: string): Status {
    if Lowered(stepResult) == "success" then StatusPass
    else if Lowered(stepResult) == "failure" then StatusFail
    else FromText(stepResult)
  }

  /** Lines 143-144: the entry reports a failure of its job. */
  predicate ReportsFailure(entry: Entry, job: string) {
    Lowered(entry.stepResult) == "failure" || (entry.errorLevel && job != RUNNER)
  }

  // ---- what the collector holds after a history of entries ----

  function Jobs(history: seq<Logged>): set<string> { set k | 0 <= k < |history| :: history[k].job }

  /** The steps of a job that the history names. */
  function StepNames(history: seq<Logged>, job: string): set<string> {
    set k | 0 <= k < |history| && history[k].job == job && history[k].step != "" :: history[k].step
  }

  /** The messages of a job in the order of arrival. */
  function Lines(history: seq<Logged>, job: string): seq<string> {
    if history == [] then []
    else
      var init, last := history[..|history| - 1], history[|history| - 1];
      if last.job == job then Lines(init, job) + [last.message] else Lines(init, job)
  }

  predicate Concerns(r: Logged, job: string, step: Option<string>) {
    r.job == job && (step.Some? ==> r.step == step.value)
  }

  /** The first entry of a job, or of one of its steps, is at position `k`. */
  ghost predicate IsFirst(history: seq<Logged>, job: string, step: Option<string>, k: nat) {
    && k < |history| && Concerns(history[k], job, step)
    && forall m | 0 <= m < k :: !Concerns(history[m], job, step)
  }

  ghost predicate IsLast(history: seq<Logged>, job: string, k: nat) {
    && k < |history| && history[k].job == job
    && forall m | k < m < |history| :: history[m].job != job
  }

  predicate Judges(r: Logged, job: string, step: string) {
    r.job == job && r.step == step && r.stepResult != ""
  }

  /** The latest entry that gives the step a result is at position `k`. */
  ghost predicate IsVerdict(history: seq<Logged>, job: string, step: string, k: nat) {
    && k < |history| && Judges(history[k], job, step)
    && forall m | k < m < |history| :: !Judges(history[m], job, step)
  }

  predicate Judged(step: JobStep, r: Logged) {
    && step.status == StepStatus(r.stepResult) && step.completedAt == Some(r.now)
    && step.startedAt.Some? && step.durationMS == r.now - step.startedAt.value
  }

  /** No entry has given the step a result. */
  ghost predicate Unjudged(history: seq<Logged>, job: string, step: string) {
    forall m | 0 <= m < |history| :: !Judges(history[m], job, step)
  }

  ghost predicate StartedFirst(history: seq<Logged>, job: string, step: JobStep) {
    exists k: nat :: IsFirst(history, job, Some(step.name), k) && step.startedAt == Some(history[k].now)
  }

  /** A step started when it was first named, and ended with its latest result. */
  ghost predicate DescribesStep(history: seq<Logged>, job: string, step: JobStep) {
    && StartedFirst(history, job, step)
    && (Unjudged(history, job, step.name) ==> step == JobStep(step.name, StatusRunning, step.startedAt, None, 0))
    && (forall k: nat | IsVerdict(history, job, step.name, k) :: Judged(step, history[k]))
  }

  ghost predicate BuffersHold(buffers: map<string, seq<string>>, history: seq<Logged>) {
    buffers.Keys == Jobs(history) && forall job | job in buffers :: buffers[job] == Lines(history, job)
  }

  ghost predicate StartedHold(started: map<string, int>, history: seq<Logged>) {
    && started.Keys == Jobs(history)
    && forall job | job in started :: exists k: nat :: IsFirst(history, job, None, k) && started[job] == history[k].now
  }

  ghost predicate FinishedHold(finished: map<string, int>, history: seq<Logged>) {
    && finished.Keys == Jobs(history)
    && forall job | job in finished :: exists k: nat :: IsLast(history, job, k) && finished[job] == history[k].now
  }

  function StepsOf(steps: map<string, map<string, JobStep>>, job: string): map<string, JobStep> {
    if job in steps then steps[job] else map[]
  }

  ghost predicate KnownHold(known: map<string, JobStep>, history: seq<Logged>, job: string) {
    && known.Keys == StepNames(history, job) && Named(known)
    && forall name | name in known :: DescribesStep(history, job, known[name])
  }

  ghost predicate StepsHold(steps: map<string, map<string, JobStep>>, history: seq<Logged>) {
    forall job :: KnownHold(StepsOf(steps, job), history, job)
  }

  // ---- one more entry ----

  lemma JobsAppend(history: seq<Logged>, r: Logged)
    ensures Jobs(history + [r]) == Jobs(history) + {r.job}
  {
    var grown := history + [r];
    assert grown[|history|] == r;
    assert forall k | 0 <= k < |history| :: grown[k] == history[k];
  }

  lemma StepNamesAppend(history: seq<Logged>, r: Logged, job: string)
    ensures StepNames(history + [r], job) == StepNames(history, job) + (if r.job == job && r.step != "" then {r.step} else {})
  {
    var grown := history + [r];
    assert grown[|history|] == r;
    assert forall k | 0 <= k < |history| :: grown[k] == history[k];
  }

  lemma LinesAppend(history: seq<Logged>, r: Logged, job: string)
    ensures Lines(history + [r], job) == if r.job == job then Lines(history, job) + [r.message] else Lines(history, job)
  {
    assert (history + [r])[..|history|] == history;
  }

  lemma {:induction false} NoLines(history: seq<Logged>, job: string)
    requires job !in Jobs(history)
    ensures Lines(history, job) == []
  {
    if history != [] {
      var init := history[..|history| - 1];
      assert history == init + [history[|history| - 1]];
      JobsAppend(init, history[|history| - 1]);
      NoLines(init, job);
    }
  }

  lemma BuffersAppend(buffers: map<string, seq<string>>, history: seq<Logged>, r: Logged)
    requires BuffersHold(buffers, history)
    ensures BuffersHold(buffers[r.job := (if r.job in buffers then buffers[r.job] else []) + [r.message]], history + [r])
  {
    JobsAppend(history, r);
    if r.job !in buffers { NoLines(history, r.job); }
    forall job { LinesAppend(history, r, job); }
  }

  lemma StartedAppend(started: map<string, int>, history: seq<Logged>, r: Logged)
    requires StartedHold(started, history)
    ensures StartedHold(if r.job in started then started else started[r.job := r.now], history + [r])
  {
    var grown := history + [r];
    var after := if r.job in started then started else started[r.job := r.now];
    JobsAppend(history, r);
    forall job | job in after ensures exists k: nat :: IsFirst(grown, job, None, k) && after[job] == grown[k].now {
      if job in started {
        var k: nat :| IsFirst(history, job, None, k) && started[job] == history[k].now;
        assert IsFirst(grown, job, None, k);
      } else {
        assert IsFirst(grown, job, None, |history|);
      }
    }
  }

  lemma FinishedAppend(finished: map<string, int>, history: seq<Logged>, r: Logged)
    requires FinishedHold(finished, history)
    ensures FinishedHold(finished[r.job := r.now], history + [r])
  {
    var grown := history + [r];
    var after := finished[r.job := r.now];
    JobsAppend(history, r);
    forall job | job in after ensures exists k: nat :: IsLast(grown, job, k) && after[job] == grown[k].now {
      if job == r.job {
        assert IsLast(grown, job, |history|);
      } else {
        var k: nat :| IsLast(history, job, k) && finished[job] == history[k].now;
        assert IsLast(grown, job, k);
      }
    }
  }

  /** Lines 118-141: the record of the step after the entry. */
  function NextStep(known: map<string, JobStep>, r: Logged): JobStep {
    var current := if r.step in known then known[r.step] else JobStep(r.step, StatusRunning, Some(r.now), None, 0);
    if r.stepResult == "" then current
    else
      var started := if current.startedAt.Some? then current.startedAt.value else r.now;
      current.(completedAt := Some(r.now), durationMS := r.now - started, status := StepStatus(r.stepResult))
  }

  /** An entry about another step, or about none, changes nothing about this one. */
  lemma OtherStep(history: seq<Logged>, r: Logged, job: string, step: JobStep)
    requires DescribesStep(history, job, step) && !Concerns(r, job, Some(step.name))
    ensures DescribesStep(history + [r], job, step)
  {
    var grown := history + [r];
    var first: nat :| IsFirst(history, job, Some(step.name), first) && step.startedAt == Some(history[first].now);
    assert IsFirst(grown, job, Some(step.name), first);
    if Unjudged(grown, job, step.name) {
      forall m | 0 <= m < |history| ensures !Judges(history[m], job, step.name) {
        assert !Judges(grown[m], job, step.name);
      }
    }
    forall k: nat | IsVerdict(grown, job, step.name, k) ensures Judged(step, grown[k]) {
      VerdictBefore(history, r, job, step.name, k);
    }
  }

  lemma VerdictBefore(history: seq<Logged>, r: Logged, job: string, step: string, k: nat)
    requires IsVerdict(history + [r], job, step, k) && !Judges(r, job, step)
    ensures IsVerdict(history, job, step, k) && (history + [r])[k] == history[k]
  {
    var grown := history + [r];
    assert grown[|history|] == r;
    forall m | k < m < |history| ensures !Judges(history[m], job, step) {
      assert !Judges(grown[m], job, step);
    }
  }

  /** The step the entry names. */
  lemma NamedStep(history: seq<Logged>, known: map<string, JobStep>, r: Logged)
    requires r.step != "" && KnownHold(known, history, r.job)
    ensures NextStep(known, r).name == r.step && NextStep(known, r).startedAt.Some?
    ensures DescribesStep(history + [r], r.job, NextStep(known, r))
  {
    var grown, step := history + [r], NextStep(known, r);
    NamedStepStarted(history, known, r);
    if r.stepResult == "" {
      NamedStepUnjudged(history, known, r);
    } else {
      assert Judges(grown[|history|], r.job, r.step);
      forall k: nat | IsVerdict(grown, r.job, r.step, k) ensures Judged(step, grown[k]) {
        assert k == |history|;
      }
    }
  }

  lemma NamedStepStarted(history: seq<Logged>, known: map<string, JobStep>, r: Logged)
    requires r.step != "" && KnownHold(known, history, r.job)
    ensures StartedFirst(history + [r], r.job, NextStep(known, r))
  {
    var grown := history + [r];
    if r.step in known {
      var k: nat :| IsFirst(history, r.job, Some(r.step), k) && known[r.step].startedAt == Some(history[k].now);
      assert IsFirst(grown, r.job, Some(r.step), k);
    } else {
      assert IsFirst(grown, r.job, Some(r.step), |history|);
    }
  }

  lemma NamedStepUnjudged(history: seq<Logged>, known: map<string, JobStep>, r: Logged)
    requires r.step != "" && KnownHold(known, history, r.job) && r.stepResult == ""
    ensures var step := NextStep(known, r);
            && (Unjudged(history + [r], r.job, r.step) ==> step == JobStep(r.step, StatusRunning, step.startedAt, None, 0))
            && (forall k: nat | IsVerdict(history + [r], r.job, r.step, k) :: Judged(step, (history + [r])[k]))
  {
    var grown, step := history + [r], NextStep(known, r);
    if Unjudged(grown, r.job, r.step) {
      forall m | 0 <= m < |history| ensures !Judges(history[m], r.job, r.step) {
        assert !Judges(grown[m], r.job, r.step);
      }
    }
    forall k: nat | IsVerdict(grown, r.job, r.step, k) ensures Judged(step, grown[k]) {
      VerdictBefore(history, r, r.job, r.step, k);
      assert history[k].step in known;
    }
  }

  function NextSteps(steps: map<string, map<string, JobStep>>, r: Logged): map<string, map<string, JobStep>> {
    if r.step == "" then steps
    else steps[r.job := StepsOf(steps, r.job)[r.step := NextStep(StepsOf(steps, r.job), r)]]
  }

  lemma StillDescribed(known: map<string, JobStep>, history: seq<Logged>, r: Logged, name: string)
    requires KnownHold(known, history, r.job) && name in known && name != r.step
    ensures DescribesStep(history + [r], r.job, known[name])
  {
    assert known[name].name == name;
    OtherStep(history, r, r.job, known[name]);
  }

  lemma NamedKnown(known: map<string, JobStep>, history: seq<Logged>, r: Logged)
    requires r.step != "" && KnownHold(known, history, r.job)
    ensures KnownHold(known[r.step := NextStep(known, r)], history + [r], r.job)
  {
    var after := known[r.step := NextStep(known, r)];
    NamedStep(history, known, r);
    StepNamesAppend(history, r, r.job);
    forall name | name in after ensures DescribesStep(history + [r], r.job, after[name]) {
      if name != r.step { StillDescribed(known, history, r, name); }
    }
  }

  lemma OtherKnown(known: map<string, JobStep>, history: seq<Logged>, r: Logged, job: string)
    requires KnownHold(known, history, job) && (job != r.job || r.step == "")
    ensures KnownHold(known, history + [r], job)
  {
    StepNamesAppend(history, r, job);
    forall name | name in known ensures DescribesStep(history + [r], job, known[name]) {
      assert known[name].name == name && name in StepNames(history, job);
      OtherStep(history, r, job, known[name]);
    }
  }

  lemma StepsAppend(steps: map<string, map<string, JobStep>>, history: seq<Logged>, r: Logged)
    requires StepsHold(steps, history)
    ensures StepsHold(NextSteps(steps, r), history + [r])
  {
    forall job ensures KnownHold(StepsOf(NextSteps(steps, r), job), history + [r], job) {
      var known := StepsOf(steps, job);
      assert KnownHold(known, history, job);
      if job == r.job && r.step != "" {
        NamedKnown(known, history, r);
      } else {
        assert StepsOf(NextSteps(steps, r), job) == known;
        OtherKnown(known, history, r, job);
      }
    }
  }

  // ---- what was known when a message was masked ----

  /** The message shows none of these secrets that a mask can hide. */
  ghost predicate Clean(message: string, held: seq<string>) {
    forall secret | secret in held && Solid(secret) :: !Occurs(message, secret)
  }

  lemma MaskedIsClean(message: string, held: seq<string>)
    requires LongestFirst(held)
    ensures Clean(ReplaceEach(message, held), held)
  {
    forall secret | secret in held && Solid(secret) ensures !Occurs(ReplaceEach(message, held), secret) {
      MaskingComplete(held, message, secret);
    }
  }

  /** The entry announces the value in its message, or act has attached it. */
  ghost predicate Tells(entry: Entry, attached: nat, value: string)
    requires attached <= |entry.masks|
  {
    value != "" && (value == TrimSpace(Announced(entry.message)) || exists k :: 0 <= k < attached && value == TrimSpace(entry.masks[k]))
  }

  /** The secrets known after the first masks of the entry have been added. */
  ghost predicate Learnt(before: seq<string>, after: seq<string>, entry: Entry, attached: nat)
    requires attached <= |entry.masks|
  {
    forall value :: value in after <==> value in before || Tells(entry, attached, value)
  }

  /** An entry never shows what it tells itself: the value behind its first marker, or one that act has attached. */
  lemma OwnSecretsHidden(before: seq<string>, after: seq<string>, entry: Entry, secret: string)
    requires LongestFirst(after) && Learnt(before, after, entry, |entry.masks|) && Solid(secret)
    requires || (exists k :: 0 <= k < |entry.masks| && secret == TrimSpace(entry.masks[k]))
             || (exists a: nat | OccursAt(entry.message, "::add-mask::", a) && (forall b: nat | b < a :: !OccursAt(entry.message, "::add-mask::", b)) ::
                   a + 12 <= |entry.message| && secret == TrimSpace(entry.message[a + 12..]))
    ensures secret in after && !Occurs(ReplaceEach(entry.message, after), secret)
  {
    if a: nat :| OccursAt(entry.message, "::add-mask::", a) && (forall b: nat | b < a :: !OccursAt(entry.message, "::add-mask::", b))
                 && a + 12 <= |entry.message| && secret == TrimSpace(entry.message[a + 12..]) {
      AnnouncedMeans(entry.message, a);
      TrimIdempotent(entry.message[a + 12..]);
      assert Tells(entry, |entry.masks|, secret);
    } else {
      assert Tells(entry, |entry.masks|, secret);
    }
    MaskingComplete(after, entry.message, secret);
  }

  lemma AddedMember(before: seq<string>, after: seq<string>, value: string, x: string)
    requires Added(before, after, value)
    ensures x in after <==> x in before || (x == value && x != "")
  {
    assert x in after <==> x in multiset(after);
    assert x in before <==> x in multiset(before);
  }

  // ---- what the jobs are told ----

  /** The first and the last time at which something was collected for the job. */
  ghost predicate Times(history: seq<Logged>, job: string, started: int, finished: int) {
    exists first: nat, last: nat :: IsFirst(history, job, None, first) && IsLast(history, job, last) &&
                                    started == history[first].now && finished == history[last].now
  }

  /** Exactly the named steps of the job, each as the history describes it, in order. */
  ghost predicate StepList(history: seq<Logged>, job: string, list: seq<JobStep>) {
    && Sorted(list)
    && (forall step | step in list :: step.name in StepNames(history, job) && DescribesStep(history, job, step))
    && (forall name | name in StepNames(history, job) :: exists step :: step in list && step.name == name)
  }

  /** The job before and after `Apply`. */
  ghost predicate Annotates(history: seq<Logged>, workflowID: string, before: Job, after: Job) {
    if before.id !in Jobs(history) then after == before
    else
      && after == before.(log := after.log, startedAt := after.startedAt, completedAt := after.completedAt,
                          durationMS := after.durationMS, steps := after.steps)
      && after.log == LogPath(LogNames.LogKey(workflowID, before.id))
      && after.startedAt.Some? && after.completedAt.Some?
      && Times(history, before.id, after.startedAt.value, after.completedAt.value)
      && after.durationMS == after.completedAt.value - after.startedAt.value
      && (if StepNames(history, before.id) == {} then after.steps == before.steps else StepList(history, before.id, after.steps))
  }

  /** The first `n` jobs have been annotated, the others are as they were. */
  ghost predicate AnnotatesFirst(history: seq<Logged>, workflowID: string, before: seq<Job>, after: seq<Job>, n: nat) {
    && n <= |before| == |after| && before[n..] == after[n..]
    && forall j | 0 <= j < n :: Annotates(history, workflowID, before[j], after[j])
  }

  lemma AnnotatesNext(history: seq<Logged>, workflowID: string, before: seq<Job>, middle: seq<Job>, j: nat, job: Job)
    requires AnnotatesFirst(history, workflowID, before, middle, j) && j < |before|
    requires Annotates(history, workflowID, before[j], job)
    ensures AnnotatesFirst(history, workflowID, before, middle[j := job], j + 1)
  {
    assert before[j + 1..] == before[j..][1..] == middle[j..][1..] == middle[j + 1..];
  }

  lemma VerdictExists(history: seq<Logged>, job: string, step: string) returns (k: nat)
    requires !Unjudged(history, job, step)
    ensures IsVerdict(history, job, step, k)
    decreases |history|
  {
    if Judges(history[|history| - 1], job, step) {
      k := |history| - 1;
    } else {
      var init := history[..|history| - 1];
      var m :| 0 <= m < |history| && Judges(history[m], job, step);
      assert Judges(init[m], job, step);
      k := VerdictExists(init, job, step);
      forall m | k < m < |history| ensures !Judges(history[m], job, step) {
        if m < |init| { assert init[m] == history[m]; }
      }
    }
  }

  lemma DescribedOnce(history: seq<Logged>, job: string, x: JobStep, y: JobStep)
    requires DescribesStep(history, job, x) && DescribesStep(history, job, y) && x.name == y.name
    ensures x == y && x.startedAt.Some?
  {
    var k: nat :| IsFirst(history, job, Some(x.name), k) && x.startedAt == Some(history[k].now);
    var m: nat :| IsFirst(history, job, Some(x.name), m) && y.startedAt == Some(history[m].now);
    assert k == m;
    if !Unjudged(history, job, x.name) {
      var v := VerdictExists(history, job, x.name);
    }
  }

  lemma ArrangedIsStepList(history: seq<Logged>, job: string, known: map<string, JobStep>, list: seq<JobStep>)
    requires KnownHold(known, history, job) && Arranged(known, list)
    ensures StepList(history, job, list)
  {
    forall name | name in StepNames(history, job) ensures exists step :: step in list && step.name == name {
      assert known[name].name == name && known[name] in list;
    }
  }

  /** The history determines the step list: neither map iteration order nor anything else can show in it. */
  lemma StepListUnique(history: seq<Logged>, job: string, list: seq<JobStep>, other: seq<JobStep>)
    requires StepList(history, job, list) && StepList(history, job, other)
    ensures list == other
  {
    forall x ensures x in list <==> x in other {
      if x in list { Shared(history, job, list, other, x); }
      if x in other { Shared(history, job, other, list, x); }
    }
    forall x | x in list ensures x.startedAt.Some? {
      DescribedOnce(history, job, x, x);
    }
    SameMembersSameOrder(list, other);
  }

  lemma Shared(history: seq<Logged>, job: string, list: seq<JobStep>, other: seq<JobStep>, x: JobStep)
    requires StepList(history, job, list) && StepList(history, job, other) && x in list
    ensures x in other
  {
    var y :| y in other && y.name == x.name;
    DescribedOnce(history, job, x, y);
  }

  /** The content of a log file. */
  function Text(lines: seq<string>): string {
    if lines == [] then "" else Text(lines[..|lines| - 1]) + lines[|lines| - 1] + "\n"
  }

  function IDs(jobs: seq<Job>): seq<string> { seq(|jobs|, j requires 0 <= j < |jobs| => jobs[j].id) }

  /** The job has a log, and it cannot be written. */
  predicate Unwritable(history: seq<Logged>, workflowID: string, id: string, broken: set<string>) {
    id in Jobs(history) && LogPath(LogNames.LogKey(workflowID, id)) in broken
  }

  /** The log files after the jobs with these IDs have been visited. */
  function FilesAfter(files: map<string, string>, history: seq<Logged>, workflowID: string, ids: seq<string>): map<string, string> {
    if ids == [] then files
    else
      var before, id := FilesAfter(files, history, workflowID, ids[..|ids| - 1]), ids[|ids| - 1];
      if id in Jobs(history) then before[LogPath(LogNames.LogKey(workflowID, id)) := Text(Lines(history, id))] else before
  }

  lemma FilesAfterOne(files: map<string, string>, history: seq<Logged>, workflowID: string, id: string)
    ensures FilesAfter(files, history, workflowID, [id]) ==
            if id in Jobs(history) then files[LogPath(LogNames.LogKey(workflowID, id)) := Text(Lines(history, id))] else files
  {
    assert [id][..0] == [];
  }

  lemma FilesAfterNext(files: map<string, string>, history: seq<Logged>, workflowID: string, jobs: seq<Job>, job: Job)
    ensures FilesAfter(files, history, workflowID, IDs(jobs + [job])) ==
            FilesAfter(FilesAfter(files, history, workflowID, IDs(jobs)), history, workflowID, [job.id])
  {
    assert IDs(jobs + [job])[..|jobs|] == IDs(jobs);
    FilesAfterOne(FilesAfter(files, history, workflowID, IDs(jobs)), history, workflowID, job.id);
  }

  // ---- the collector ----

  /** The log directory of the run (store.go:88-97); a path in `broken` cannot be written. */
  class RunLogs {
    var files: map<string, string>

    method WriteLog(name: string, content: string, broken: set<string>) returns (path: Option<string>)
      modifies this
      ensures path == if LogPath(name) in broken then None else Some(LogPath(name))
      ensures path.Some? ==> path.value == "logs/" + LogNames.Join(LogNames.Words(name)) + ".log"
      ensures files == if path.Some? then old(files)[path.value := content] else old(files)
    {
      var safe := LogNames.MakeSafeName(name);
      var target := "logs/" + safe + ".log";
      if target in broken {
        return None;
      }
      files := files[target := content];
      return Some(target);
    }
  }

  function LogPath(name: string): string { "logs/" + LogNames.SafeName(name) + ".log" }

  class LogCollector {
    const masker: Masker
    const failures: Protocol.FailureState
    const workflowID: string
    const aliases: map<string, string>
    const knownJobs: set<string>
    const fallback: string
    const failFast: bool

    var buffers: map<string, seq<string>>
    var started: map<string, int>
    var finished: map<string, int>
    var steps: map<string, map<string, JobStep>>

    /** What has been collected, and the secrets that were held when each message was masked. */
    ghost var history: seq<Logged>
    ghost var held: seq<seq<string>>

    ghost predicate MapsHold()
      reads this
    {
      BuffersHold(buffers, history) && StartedHold(started, history) && FinishedHold(finished, history) && StepsHold(steps, history)
    }

    ghost predicate Valid()
      reads this, masker
    {
      && masker.Valid() && MapsHold()
      && |held| == |history| && forall k | 0 <= k < |history| :: Clean(history[k].message, held[k])
    }

    constructor (
      masker: Masker, failures: Protocol.FailureState, workflowID: string,
      aliases: map<string, string>, knownJobs: set<string>, fallback: string, failFast: bool)
      requires masker.Valid()
      ensures Valid() && history == [] && this.masker == masker && this.failures == failures
      ensures this.workflowID == workflowID && this.aliases == aliases && this.knownJobs == knownJobs
      ensures this.fallback == fallback && this.failFast == failFast
    {
      this.masker, this.failures, this.workflowID := masker, failures, workflowID;
      this.aliases, this.knownJobs, this.fallback, this.failFast := aliases, knownJobs, fallback, failFast;
      buffers, started, finished, steps, history, held := map[], map[], map[], map[], [], [];
    }

    /**
     The first action of `Fire` (lines 83-90), outside the collector's lock: what the entry tells of
     secrets is learnt, and then the message is masked with what is known by then.
     */
    method MaskMessage(entry: Entry) returns (message: string)
      requires Valid()
      modifies masker
      ensures Valid() && Learnt(old(masker.values), masker.values, entry, |entry.masks|)
      ensures message == ReplaceEach(entry.message, masker.values)
    {
      masker.Observe(entry.message);
      LearnAnnounced(old(masker.values), masker.values, entry);
      for k := 0 to |entry.masks|
        invariant masker.Valid() && Learnt(old(masker.values), masker.values, entry, k)
      {
        ghost var before := masker.values;
        masker.Add(entry.masks[k]);
        LearnOne(old(masker.values), before, masker.values, entry, k);
      }
      message := masker.Apply(entry.message);
    }

    /** Lines 97-100: the times of the job. */
    method NoteTimes(r: Logged)
      requires StartedHold(started, history) && FinishedHold(finished, history)
      modifies this`started, this`finished
      ensures StartedHold(started, history + [r]) && FinishedHold(finished, history + [r])
    {
      StartedAppend(started, history, r);
      FinishedAppend(finished, history, r);
      if r.job !in started {
        started := started[r.job := r.now];
      }
      finished := finished[r.job := r.now];
    }

    /** Lines 101-106: the buffer of the job. */
    method NoteLine(r: Logged)
      requires BuffersHold(buffers, history)
      modifies this`buffers
      ensures BuffersHold(buffers, history + [r])
    {
      BuffersAppend(buffers, history, r);
      if r.job !in buffers {
        buffers := buffers[r.job := []];
      }
      buffers := buffers[r.job := buffers[r.job] + [r.message]];
      assert buffers == old(buffers)[r.job := (if r.job in old(buffers) then old(buffers)[r.job] else []) + [r.message]];
    }

    /** Lines 118-141: the record of the step. */
    method NoteStep(r: Logged)
      requires StepsHold(steps, history)
      modifies this`steps
      ensures StepsHold(steps, history + [r])
    {
      StepsAppend(steps, history, r);
      assert KnownHold(StepsOf(steps, r.job), history, r.job);
      if r.step != "" {
        if r.job !in steps {
          steps := steps[r.job := map[]];
        }
        var current := if r.step in steps[r.job] then steps[r.job][r.step] else JobStep(r.step, StatusRunning, Some(r.now), None, 0);
        if r.stepResult != "" {
          current := current.(completedAt := Some(r.now), durationMS := r.now - current.startedAt.value, status := StepStatus(r.stepResult));
        }
        assert current == NextStep(StepsOf(old(steps), r.job), r);
        steps := steps[r.job := steps[r.job][r.step := current]];
        assert steps == NextSteps(old(steps), r);
      }
    }

    /**
     The second action of `Fire` (lines 92-152), under the lock: a message that was masked with `known`,
     now or some time ago, joins the history of the job its entry belongs to. `cancel` tells that the
     run is to be cancelled: the first failure, in fail-fast mode.
     */
    method Write(entry: Entry, message: string, ghost known: seq<string>) returns (cancel: bool)
      requires Valid() && Clean(message, known)
      modifies this, failures
      ensures Valid()
      ensures var job := Route(aliases, knownJobs, fallback, entry);
              && history == old(history) + [Logged(entry.now, job, entry.step, entry.stepResult, message)]
              && held == old(held) + [known]
              && failures.Value() == (if ReportsFailure(entry, job) then Protocol.Record(old(failures.Value()), workflowID, job)
                                      else old(failures.Value()))
              && (cancel <==> failFast && old(failures.Value()) == None && ReportsFailure(entry, job))
    {
      var job := Route(aliases, knownJobs, fallback, entry);
      var r := Logged(entry.now, job, entry.step, entry.stepResult, message);
      NoteTimes(r);
      NoteLine(r);
      NoteStep(r);
      history, held := history + [r], held + [known];
      cancel := false;
      if ReportsFailure(entry, job) {
        var first := failures.RecordFailure(workflowID, job);
        cancel := first && failFast;
      }
    }

    /** `Fire` when no other entry comes in between its two actions. */
    method Fire(entry: Entry) returns (cancel: bool)
      requires Valid()
      modifies this, masker, failures
      ensures Valid() && Learnt(old(masker.values), masker.values, entry, |entry.masks|)
      ensures var job := Route(aliases, knownJobs, fallback, entry);
              && history == old(history) + [Logged(entry.now, job, entry.step, entry.stepResult, ReplaceEach(entry.message, masker.values))]
              && held == old(held) + [masker.values]
              && failures.Value() == (if ReportsFailure(entry, job) then Protocol.Record(old(failures.Value()), workflowID, job)
                                      else old(failures.Value()))
              && (cancel <==> failFast && old(failures.Value()) == None && ReportsFailure(entry, job))
    {
      var message := MaskMessage(entry);
      MaskedIsClean(entry.message, masker.values);
      cancel := Write(entry, message, masker.values);
    }

    /** Times are noted for exactly the jobs of the history; part of `Valid()`. */
    ghost predicate Noted()
      reads this
    {
      started.Keys == Jobs(history)
    }

    /** Whether anything has been collected for the job. */
    method HasJob(job: string) returns (has: bool)
      requires Noted()
      ensures has <==> job in Jobs(history)
    {
      has := job in started;
    }

    /** One iteration of `Apply`; `ok` is false if the log file could not be written. */
    method ApplyOne(jobs: array<Job>, j: nat, run: RunLogs, broken: set<string>) returns (ok: bool)
      requires MapsHold() && j < jobs.Length
      modifies jobs, run
      ensures ok <==> !Unwritable(history, workflowID, old(jobs[j]).id, broken)
      ensures ok ==> Annotates(history, workflowID, old(jobs[j]), jobs[j]) && jobs[..] == old(jobs[..])[j := jobs[j]]
      ensures !ok ==> jobs[..] == old(jobs[..])
      ensures run.files == FilesAfter(old(run.files), history, workflowID, if ok then [old(jobs[j]).id] else [])
    {
      var id := jobs[j].id;
      FilesAfterOne(run.files, history, workflowID, id);
      if id in buffers {
        var path := run.WriteLog(LogNames.LogKey(workflowID, id), Text(buffers[id]), broken);
        if path.None? {
          return false;
        }
        var list := ListSteps(id, jobs[j].steps);
        jobs[j] := jobs[j].(log := path.value, startedAt := Some(started[id]), completedAt := Some(finished[id]),
                            durationMS := finished[id] - started[id], steps := list);
      }
      return true;
    }

    /** Lines 182-200: the collected steps replace the planned ones, if there are any. */
    method ListSteps(id: string, planned: seq<JobStep>) returns (list: seq<JobStep>)
      requires StepsHold(steps, history)
      ensures if StepNames(history, id) == {} then list == planned else StepList(history, id, list)
    {
      assert KnownHold(StepsOf(steps, id), history, id);
      if id in steps && |steps[id]| > 0 {
        list := Arrange(steps[id]);
        ArrangedIsStepList(history, id, steps[id], list);
      } else {
        list := planned;
      }
    }

    /**
     `Apply`: every job with a buffer takes its log, times and steps from the history, up to the first one
     whose log cannot be written.
     */
    method Apply(jobs: array<Job>, run: RunLogs, broken: set<string>) returns (ok: bool, reached: nat)
      requires MapsHold()
      modifies jobs, run
      ensures AnnotatesFirst(history, workflowID, old(jobs[..]), jobs[..], reached)
      ensures if ok then reached == jobs.Length
              else reached < jobs.Length && Unwritable(history, workflowID, old(jobs[..])[reached].id, broken)
      ensures run.files == FilesAfter(old(run.files), history, workflowID, IDs(old(jobs[..])[..reached]))
    {
      reached, ok := 0, true;
      while reached < jobs.Length
        invariant AnnotatesFirst(history, workflowID, old(jobs[..]), jobs[..], reached)
        invariant run.files == FilesAfter(old(run.files), history, workflowID, IDs(old(jobs[..])[..reached]))
        decreases jobs.Length - reached
      {
        ok := ApplyNext(old(jobs[..]), old(run.files), jobs, reached, run, broken);
        if !ok {
          return;
        }
        reached := reached + 1;
      }
    }

    method ApplyNext(ghost before: seq<Job>, ghost files: map<string, string>, jobs: array<Job>, j: nat, run: RunLogs, broken: set<string>)
      returns (ok: bool)
      requires MapsHold() && j < jobs.Length && AnnotatesFirst(history, workflowID, before, jobs[..], j)
      requires run.files == FilesAfter(files, history, workflowID, IDs(before[..j]))
      modifies jobs, run
      ensures ok <==> !Unwritable(history, workflowID, before[j].id, broken)
      ensures AnnotatesFirst(history, workflowID, before, jobs[..], if ok then j + 1 else j)
      ensures run.files == FilesAfter(files, history, workflowID, IDs(before[..if ok then j + 1 else j]))
    {
      ghost var middle := jobs[..];
      assert jobs[j] == middle[j] == before[j];
      FilesAfterNext(files, history, workflowID, before[..j], before[j]);
      assert before[..j + 1] == before[..j] + [before[j]];
      ok := ApplyOne(jobs, j, run, broken);
      if ok { AnnotatesNext(history, workflowID, before, middle, j, jobs[j]); }
    }
  }

  lemma LearnAnnounced(start: seq<string>, after: seq<string>, entry: Entry)
    requires Added(start, after, TrimSpace(Announced(entry.message)))
    ensures Learnt(start, after, entry, 0)
  {
    forall x ensures x in after <==> x in start || Tells(entry, 0, x) {
      AddedMember(start, after, TrimSpace(Announced(entry.message)), x);
    }
  }

  lemma LearnOne(start: seq<string>, before: seq<string>, after: seq<string>, entry: Entry, k: nat)
    requires k < |entry.masks| && Learnt(start, before, entry, k) && Added(before, after, TrimSpace(entry.masks[k]))
    ensures Learnt(start, after, entry, k + 1)
  {
    forall x ensures x in after <==> x in start || Tells(entry, k + 1, x) {
      AddedMember(before, after, TrimSpace(entry.masks[k]), x);
      assert x in before <==> x in start || Tells(entry, k, x);
    }
  }

  // ---- what a collection guarantees ----

  /** Where the entries of a job are in the history. */
  function Positions(history: seq<Logged>, job: string): seq<nat> {
    if history == [] then []
    else
      var before := Positions(history[..|history| - 1], job);
      if history[|history| - 1].job == job then before + [|history| - 1] else before
  }

  /** The positions ascend, are exactly those of the job's entries, and give the buffer its lines. */
  ghost predicate InArrivalOrder(history: seq<Logged>, job: string, at: seq<nat>, lines: seq<string>) {
    && (forall a, b | 0 <= a < b < |at| :: at[a] < at[b])
    && (forall k: nat :: k in at <==> k < |history| && history[k].job == job)
    && |lines| == |at|
    && (forall a | 0 <= a < |at| :: at[a] < |history| && lines[a] == history[at[a]].message)
  }

  lemma ArrivalOfJob(history: seq<Logged>, r: Logged, at: seq<nat>, lines: seq<string>)
    requires InArrivalOrder(history, r.job, at, lines)
    ensures InArrivalOrder(history + [r], r.job, at + [|history|], lines + [r.message])
  {
    var grown, longer := history + [r], at + [|history|];
    forall k: nat ensures k in longer <==> k < |grown| && grown[k].job == r.job {
      assert k in longer <==> k in at || k == |history|;
    }
  }

  lemma ArrivalOfOther(history: seq<Logged>, r: Logged, job: string, at: seq<nat>, lines: seq<string>)
    requires InArrivalOrder(history, job, at, lines) && r.job != job
    ensures InArrivalOrder(history + [r], job, at, lines)
  {
  }

  /** Every message is in the buffer of its job and of no other, and buffers are in the order of arrival. */
  lemma {:induction false} ArrivalOrder(history: seq<Logged>, job: string)
    ensures InArrivalOrder(history, job, Positions(history, job), Lines(history, job))
  {
    if history != [] {
      var init, last := history[..|history| - 1], history[|history| - 1];
      ArrivalOrder(init, job);
      assert history == init + [last];
      if last.job == job {
        ArrivalOfJob(init, last, Positions(init, job), Lines(init, job));
      } else {
        ArrivalOfOther(init, last, job, Positions(init, job), Lines(init, job));
      }
    }
  }

  /** No line of a buffer shows a solid secret that was held when its message was masked. */
  lemma LinesAreClean(history: seq<Logged>, held: seq<seq<string>>, job: string, a: nat) returns (k: nat)
    requires |held| == |history| && forall m | 0 <= m < |history| :: Clean(history[m].message, held[m])
    requires a < |Lines(history, job)|
    ensures k < |history| && history[k].job == job && Lines(history, job)[a] == history[k].message
    ensures Clean(Lines(history, job)[a], held[k])
  {
    ArrivalOrder(history, job);
    k := Positions(history, job)[a];
    assert k in Positions(history, job);
  }

  // ---- when spans run forward ----

  /** No entry of the job, early or late, is older than the one that started it. */
  ghost predicate JobInOrder(history: seq<Logged>, job: string) {
    forall first: nat, m: nat | IsFirst(history, job, None, first) && m < |history| && history[m].job == job ::
      history[first].now <= history[m].now
  }

  /** No result of the step is older than the entry that named it first. */
  ghost predicate StepInOrder(history: seq<Logged>, job: string, step: string) {
    forall first: nat, m: nat | IsFirst(history, job, Some(step), first) && m < |history| && Judges(history[m], job, step) ::
      history[first].now <= history[m].now
  }

  /** At no time does the job end before it starts. */
  ghost predicate JobForward(history: seq<Logged>, job: string) {
    forall n: nat, started: int, finished: int | n <= |history| && Times(history[..n], job, started, finished) :: started <= finished
  }

  /** At no time does the step end before it starts. */
  ghost predicate StepForward(history: seq<Logged>, job: string, name: string) {
    forall n: nat, step: JobStep | n <= |history| && step.name == name && DescribesStep(history[..n], job, step) :: Forward(step)
  }

  predicate Forward(step: JobStep) {
    step.startedAt.Some? && (step.completedAt.Some? ==> step.startedAt.value <= step.completedAt.value)
  }

  /** A first entry is the first in every longer and every shorter history that has it. */
  lemma FirstInPrefix(history: seq<Logged>, n: nat, job: string, step: Option<string>, k: nat)
    requires k < n <= |history|
    ensures IsFirst(history[..n], job, step, k) <==> IsFirst(history, job, step, k)
  {
    assert forall m | 0 <= m < n :: history[..n][m] == history[m];
  }

  lemma TimesForward(history: seq<Logged>, n: nat, job: string, started: int, finished: int)
    requires JobInOrder(history, job) && n <= |history| && Times(history[..n], job, started, finished)
    ensures started <= finished
  {
    var prefix := history[..n];
    var first: nat, last: nat :| IsFirst(prefix, job, None, first) && IsLast(prefix, job, last) &&
                                 started == prefix[first].now && finished == prefix[last].now;
    FirstInPrefix(history, n, job, None, first);
  }

  /** When entry `m` of the job arrives, the job reads as finished then. */
  lemma TimesAt(history: seq<Logged>, job: string, first: nat, m: nat)
    requires IsFirst(history, job, None, first) && m < |history| && history[m].job == job
    ensures Times(history[..m + 1], job, history[first].now, history[m].now)
  {
    FirstInPrefix(history, m + 1, job, None, first);
    assert IsLast(history[..m + 1], job, m);
  }

  /** A job never ends before it starts, at any time, exactly if none of its entries is older than its first one. */
  lemma JobForwardExactly(history: seq<Logged>, job: string)
    ensures JobForward(history, job) <==> JobInOrder(history, job)
  {
    if JobInOrder(history, job) {
      forall n: nat, started: int, finished: int | n <= |history| && Times(history[..n], job, started, finished)
        ensures started <= finished
      {
        TimesForward(history, n, job, started, finished);
      }
    }
    if JobForward(history, job) {
      forall first: nat, m: nat | IsFirst(history, job, None, first) && m < |history| && history[m].job == job
        ensures history[first].now <= history[m].now
      {
        TimesAt(history, job, first, m);
      }
    }
  }

  lemma DescribedForward(history: seq<Logged>, n: nat, job: string, step: JobStep)
    requires StepInOrder(history, job, step.name) && n <= |history| && DescribesStep(history[..n], job, step)
    ensures Forward(step)
  {
    var prefix := history[..n];
    var first: nat :| IsFirst(prefix, job, Some(step.name), first) && step.startedAt == Some(prefix[first].now);
    FirstInPrefix(history, n, job, Some(step.name), first);
    if !Unjudged(prefix, job, step.name) {
      var last := VerdictExists(prefix, job, step.name);
      assert Judges(history[last], job, step.name);
    }
  }

  /** When a result of the step arrives, the step reads as ended then. */
  lemma DescribedAt(history: seq<Logged>, job: string, name: string, first: nat, m: nat) returns (step: JobStep)
    requires IsFirst(history, job, Some(name), first) && m < |history| && Judges(history[m], job, name)
    ensures step.name == name && DescribesStep(history[..m + 1], job, step)
    ensures step.startedAt == Some(history[first].now) && step.completedAt == Some(history[m].now)
  {
    var prefix := history[..m + 1];
    step := JobStep(name, StepStatus(history[m].stepResult), Some(history[first].now), Some(history[m].now),
                    history[m].now - history[first].now);
    assert Concerns(history[m], job, Some(name));
    FirstInPrefix(history, m + 1, job, Some(name), first);
    assert prefix[first] == history[first] && prefix[m] == history[m];
    assert Judges(prefix[m], job, name);
    forall k: nat | IsVerdict(prefix, job, name, k) ensures Judged(step, prefix[k]) {
      assert k == m;
    }
  }

  /** A step never ends before it starts, at any time, exactly if none of its results is older than its first mention. */
  lemma StepForwardExactly(history: seq<Logged>, job: string, name: string)
    ensures StepForward(history, job, name) <==> StepInOrder(history, job, name)
  {
    if StepInOrder(history, job, name) {
      forall n: nat, step: JobStep | n <= |history| && step.name == name && DescribesStep(history[..n], job, step)
        ensures Forward(step)
      {
        DescribedForward(history, n, job, step);
      }
    }
    if StepForward(history, job, name) {
      forall first: nat, m: nat | IsFirst(history, job, Some(name), first) && m < |history| && Judges(history[m], job, name)
        ensures history[first].now <= history[m].now
      {
        var step := DescribedAt(history, job, name, first, m);
        assert Forward(step);
      }
    }
  }

  /** What `Apply` writes onto a job runs forward if the job, and each of its steps, is in order. */
  lemma SpansForward(history: seq<Logged>, workflowID: string, before: Job, after: Job)
    requires Annotates(history, workflowID, before, after) && before.id in Jobs(history)
    ensures JobInOrder(history, before.id) ==> after.startedAt.value <= after.completedAt.value && after.durationMS >= 0
    ensures forall step | StepNames(history, before.id) != {} && step in after.steps && StepInOrder(history, before.id, step.name) ::
              Forward(step)
  {
    assert history[..|history|] == history;
    if JobInOrder(history, before.id) {
      TimesForward(history, |history|, before.id, after.startedAt.value, after.completedAt.value);
    }
    forall step | StepNames(history, before.id) != {} && step in after.steps && StepInOrder(history, before.id, step.name)
      ensures Forward(step)
    {
      DescribedForward(history, |history|, before.id, step);
    }
  }

  /** Two of the jobs' logs have the same name. */
  predicate SameWords(left: string, right: string) { LogNames.Words(left) == LogNames.Words(right) }

  /**
   After `Apply`, the log a job points to holds the buffer of the last job with a buffer whose ID has the
   same words: its own, unless there is a later one.
   */
  lemma {:induction false} LogFileHolds(files: map<string, string>, history: seq<Logged>, workflowID: string, ids: seq<string>, j: nat, m: nat)
    requires j <= m < |ids| && ids[m] in Jobs(history) && SameWords(ids[j], ids[m])
    requires forall k | m < k < |ids| && ids[k] in Jobs(history) :: !SameWords(ids[j], ids[k])
    ensures var path := LogPath(LogNames.LogKey(workflowID, ids[j]));
            && path in FilesAfter(files, history, workflowID, ids)
            && FilesAfter(files, history, workflowID, ids)[path] == Text(Lines(history, ids[m]))
    decreases |ids|
  {
    var last := ids[|ids| - 1];
    SameLogPath(workflowID, ids[j], last);
    if m < |ids| - 1 {
      LogFileHolds(files, history, workflowID, ids[..|ids| - 1], j, m);
    }
  }

  lemma SameLogPath(workflowID: string, left: string, right: string)
    ensures LogPath(LogNames.LogKey(workflowID, left)) == LogPath(LogNames.LogKey(workflowID, right)) <==> SameWords(left, right)
  {
    LogNames.JobsShareLogExactly(workflowID, left, workflowID, right);
    var w, l, r := LogNames.Words(workflowID), LogNames.Words(left), LogNames.Words(right);
    assert l == (w + l)[|w|..] && r == (w + r)[|w|..];
    var a, b := LogPath(LogNames.LogKey(workflowID, left)), LogPath(LogNames.LogKey(workflowID, right));
    assert LogNames.SafeName(LogNames.LogKey(workflowID, left)) == a[5..|a| - 4];
    assert LogNames.SafeName(LogNames.LogKey(workflowID, right)) == b[5..|b| - 4];
  }
}
