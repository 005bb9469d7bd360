/**
 What a job's record says of its past, and what its rank says of its record
 (internal/history/history.go:94-190), in terms of the outcomes recorded and of plain arithmetic.
 */
module Yields {
  import opened Model
  import opened History

  // ---- the rank ----

  /** Of two jobs that differ only in how their latest run ended, the one that failed ranks three times as high. */
  lemma RecentFailureTriples(heuristic: real, value: JobStats)
    requires value.runs >= 0 && value.lastStatus != "fail"
    ensures Rank(heuristic, value.(lastStatus := "fail")) == 3.0 * Rank(heuristic, value)
  {
    assert DetectionMS(value.(lastStatus := "fail")) == DetectionMS(value);
  }

  /**
   The rank of a job that did not fail last, times its detection time and its runs with the two the prior
   is worth, is its failures with those of the prior, for each of the 3600000 milliseconds of an hour.
   */
  lemma RankTimesCost(heuristic: real, value: JobStats)
    requires value.runs >= 0 && value.lastStatus != "fail"
    ensures Rank(heuristic, value) * DetectionMS(value) as real * (value.runs as real + 2.0) ==
            (value.failures as real + 2.0 * Prior(heuristic)) * 3600000.0
  {
    var n, top := value.runs as real + 2.0, value.failures as real + Prior(heuristic) * 2.0;
    var p := Probability(Prior(heuristic), value.failures, value.runs);
    ScoreTimes(p, DetectionMS(value));
    Ratio(top, n);
    Swap(p, 3600000.0, n);
  }

  lemma Swap(p: real, c: real, n: real)
    ensures p * c * n == p * n * c
  {
  }

  /** The prior rises evenly from a tenth at 0 to 0.35 at 100, and stays there outside. */
  lemma PriorIsLinear(heuristic: real)
    ensures Prior(0.0) == 0.10 && Prior(100.0) == 0.35
    ensures heuristic <= 0.0 ==> Prior(heuristic) == 0.10
    ensures heuristic >= 100.0 ==> Prior(heuristic) == 0.35
    ensures 0.0 <= heuristic <= 100.0 ==> (Prior(heuristic) - 0.10) * 400.0 == heuristic
  {
  }

  /** The detection time is the upper median of the failures' durations if positive, else that of the passes', else a minute. */
  lemma DetectionMeans(value: JobStats, fails: seq<int>, passes: seq<int>)
    requires Ascending(fails) && multiset(fails) == multiset(value.failDurations)
    requires Ascending(passes) && multiset(passes) == multiset(value.passDurations)
    ensures DetectionMS(value) ==
            if fails != [] && fails[|fails| / 2] > 0 then (if fails[|fails| / 2] < 1000 then 1000 else fails[|fails| / 2])
            else if passes != [] && passes[|passes| / 2] > 0 then (if passes[|passes| / 2] < 1000 then 1000 else passes[|passes| / 2])
            else 60000
  {
    assert |multiset(fails)| == |multiset(value.failDurations)| && |multiset(passes)| == |multiset(value.passDurations)|;
    if fails != [] { MedianIsOrderStatistic(value.failDurations, fails); }
    if passes != [] { MedianIsOrderStatistic(value.passDurations, passes); }
  }

  // ---- the record ----

  /** The outcomes of a job of one kind that took time, by their places in the log. */
  function Timed(log: seq<Entry>, key: string, failed: bool): seq<nat> {
    if log == [] then []
    else
      var before, last := Timed(log[..|log| - 1], key, failed), log[|log| - 1];
      if last.key == key && last.failed == failed && last.duration > 0 then before + [|log| - 1] else before
  }

  /** `at` lists in order the places of all such outcomes. */
  ghost predicate Places(log: seq<Entry>, key: string, failed: bool, at: seq<nat>) {
    && (forall a, b | 0 <= a < b < |at| :: at[a] < at[b])
    && (forall k: nat :: k in at <==> k < |log| && log[k].key == key && log[k].failed == failed && log[k].duration > 0)
  }

  /** The durations are those of the last 31 of these outcomes, or of all of them, in order. */
  predicate KeepsLast31(log: seq<Entry>, at: seq<nat>, durations: seq<int>)
    requires forall a | 0 <= a < |at| :: at[a] < |log|
  {
    && |durations| == (if |at| > 31 then 31 else |at|)
    && forall d | 0 <= d < |durations| :: durations[d] == log[at[|at| - |durations| + d]].duration
  }

  lemma {:induction false} TimedPlaces(log: seq<Entry>, key: string, failed: bool)
    ensures Places(log, key, failed, Timed(log, key, failed))
    ensures var at := Timed(log, key, failed);
            |Durations(log, key, failed)| == |at| &&
            forall d | 0 <= d < |at| :: at[d] < |log| && Durations(log, key, failed)[d] == log[at[d]].duration
  {
    if log != [] {
      var init := log[..|log| - 1];
      TimedPlaces(init, key, failed);
      var before, at := Timed(init, key, failed), Timed(log, key, failed);
      forall k: nat ensures k in at <==> k < |log| && log[k].key == key && log[k].failed == failed && log[k].duration > 0 {
        if k < |init| { assert init[k] == log[k]; }
        assert k in at <==> k in before || (k == |init| && |at| > |before|);
      }
    }
  }

  /** All of a record's durations in the log, for the passes or for the failures. */
  lemma DurationsMean(log: seq<Entry>, key: string, failed: bool) returns (at: seq<nat>)
    ensures Places(log, key, failed, at) && forall a | 0 <= a < |at| :: at[a] < |log|
    ensures KeepsLast31(log, at, if failed then Summary(log, key).failDurations else Summary(log, key).passDurations)
  {
    TimedPlaces(log, key, failed);
    at := Timed(log, key, failed);
  }

  /** The places of the job's outcomes in the log, or those of its failures alone. */
  function Outcomes(log: seq<Entry>, key: string, failures: bool): set<int> {
    set k | 0 <= k < |log| && log[k].key == key && (failures ==> log[k].failed)
  }

  lemma OutcomesAppend(log: seq<Entry>, key: string, failures: bool)
    requires log != []
    ensures var init, last := log[..|log| - 1], log[|log| - 1];
            Outcomes(log, key, failures) ==
            Outcomes(init, key, failures) + (if last.key == key && (failures ==> last.failed) then {|log| - 1} else {})
  {
    var init := log[..|log| - 1];
    assert forall k | 0 <= k < |init| :: init[k] == log[k];
  }

  /** The record counts the job's outcomes and its failures. */
  lemma {:induction false} CountsMean(log: seq<Entry>, key: string)
    ensures Summary(log, key).runs == |Outcomes(log, key, false)|
    ensures Summary(log, key).failures == |Outcomes(log, key, true)|
  {
    if log != [] {
      CountsMean(log[..|log| - 1], key);
      OutcomesAppend(log, key, false);
      OutcomesAppend(log, key, true);
    }
  }

  /** The status on record is that of the latest outcome. */
  lemma {:induction false} LatestMeans(log: seq<Entry>, key: string, k: nat)
    requires k < |log| && log[k].key == key && forall m | k < m < |log| :: log[m].key != key
    ensures Summary(log, key).lastStatus == if log[k].failed then "fail" else "pass"
  {
    if k < |log| - 1 { LatestMeans(log[..|log| - 1], key, k); }
  }

  /**
   What the edit-fix-rerun loop relies on: once the latest outcome of a job on file is a failure, the job
   ranks three times as high as with the same record otherwise.
   */
  lemma JustFailedRanksFirst(updates: seq<seq<Entry>>, key: string, heuristic: real, k: nat)
    requires var log := Flat(updates);
             k < |log| && log[k].key == key && log[k].failed && forall m | k < m < |log| :: log[m].key != key
    ensures var value := Get(Loaded(AfterUpdates(updates)), key);
            value.runs >= 0 && Rank(heuristic, value) == 3.0 * Rank(heuristic, value.(lastStatus := "pass"))
  {
    UpdatesSummarise(updates);
    assert Get(Loaded(AfterUpdates(updates)), key) == Summary(Flat(updates), key);
    LatestMeans(Flat(updates), key, k);
    RecentFailureTriples(heuristic, Get(Loaded(AfterUpdates(updates)), key).(lastStatus := "pass"));
  }

  // ---- what is recorded ----

  /** Exactly the passed and failed jobs that have a key are recorded, with their durations. */
  lemma EntryMeans(workflow: Workflow, job: Job, keyFor: (Workflow, Job) -> Option<string>)
    ensures var e := EntryOf(workflow, job, keyFor);
            && (e.Some? <==> (job.status == StatusPass || job.status == StatusFail) && keyFor(workflow, job).Some?)
            && (e.Some? ==> keyFor(workflow, job) == Some(e.value.key) && e.value.duration == job.durationMS)
            && (e.Some? ==> (e.value.failed <==> job.status == StatusFail))
  {
  }

  lemma {:induction false} JobEntriesMean(workflow: Workflow, n: nat, keyFor: (Workflow, Job) -> Option<string>, e: Entry)
    requires n <= |workflow.jobs|
    ensures e in JobEntries(workflow, n, keyFor) <==> exists j | 0 <= j < n :: EntryOf(workflow, workflow.jobs[j], keyFor) == Some(e)
  {
    if n > 0 { JobEntriesMean(workflow, n - 1, keyFor, e); }
  }

  /** An outcome is recorded for exactly the passed and failed jobs of the result, skipped and cancelled ones leave no trace. */
  lemma {:induction false} EntriesMean(workflows: seq<Workflow>, n: nat, keyFor: (Workflow, Job) -> Option<string>, e: Entry)
    requires n <= |workflows|
    ensures e in Entries(workflows, n, keyFor) <==>
            exists w, j | 0 <= w < n && 0 <= j < |workflows[w].jobs| :: EntryOf(workflows[w], workflows[w].jobs[j], keyFor) == Some(e)
  {
    if n > 0 {
      EntriesMean(workflows, n - 1, keyFor, e);
      JobEntriesMean(workflows[n - 1], |workflows[n - 1].jobs|, keyFor, e);
    }
  }

  /** A file of the first schema loads with its durations after the pass durations, and otherwise as it is. */
  lemma LoadedMeans(stats: Stats, key: string)
    ensures key in Loaded(Some(stats)) <==> key in stats
    ensures key in stats ==>
              Loaded(Some(stats))[key] == JobStats(stats[key].runs, stats[key].failures, stats[key].passDurations + stats[key].legacy,
                                                   stats[key].failDurations, stats[key].lastStatus, [])
  {
  }
}
