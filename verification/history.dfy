/** Run statistics and the ranking they feed (internal/history/history.go). */
module History {
  import opened Model

  const MAX_DURATIONS: nat := 31
  const DEFAULT_DETECT_MS := 60000

  /** `legacy` holds the durations of the first schema until they are migrated. */
  datatype JobStats = JobStats(
    runs: int,
    failures: int,
    passDurations: seq<int>,
    failDurations: seq<int>,
    lastStatus: string,
    legacy: seq<int>)

  const NO_STATS := JobStats(0, 0, [], [], "", [])

  type Stats = map<string, JobStats>

  /** A missing key reads as the zero value. */
  function Get(stats: Stats, key: string): JobStats {
    if key in stats then stats[key] else NO_STATS
  }

  // ---- the run log ----

  /** A job outcome that counts: a pass or a fail whose job has a key. */
  datatype Entry = Entry(key: string, failed: bool, duration: int)

  function Runs(log: seq<Entry>, key: string): nat {
    if log == [] then 0 else Runs(log[..|log| - 1], key) + (if log[|log| - 1].key == key then 1 else 0)
  }

  function Failures(log: seq<Entry>, key: string): nat {
    if log == [] then 0
    else Failures(log[..|log| - 1], key) + (if log[|log| - 1].key == key && log[|log| - 1].failed then 1 else 0)
  }

  /** The positive durations of the outcomes of one kind, in order. */
  function Durations(log: seq<Entry>, key: string, failed: bool): seq<int> {
    if log == [] then []
    else
      var init, last := Durations(log[..|log| - 1], key, failed), log[|log| - 1];
      if last.key == key && last.failed == failed && last.duration > 0 then init + [last.duration] else init
  }

  function StatusName(failed: bool): string { if failed then StatusText(StatusFail) else StatusText(StatusPass) }

  function LastStatus(log: seq<Entry>, key: string): string {
    if log == [] then ""
    else if log[|log| - 1].key == key then StatusName(log[|log| - 1].failed)
    else LastStatus(log[..|log| - 1], key)
  }

  /** The last `n` elements, or all of a shorter list. */
  function LastN(s: seq<int>, n: nat): seq<int> { if |s| > n then s[|s| - n..] else s }

  /** What the statistics of a key must be after the whole log. */
  function Summary(log: seq<Entry>, key: string): JobStats {
    JobStats(Runs(log, key), Failures(log, key),
             LastN(Durations(log, key, false), MAX_DURATIONS), LastN(Durations(log, key, true), MAX_DURATIONS),
             LastStatus(log, key), [])
  }

  ghost predicate Summarises(stats: Stats, log: seq<Entry>) {
    forall key :: Get(stats, key) == Summary(log, key)
  }

  // ---- recording ----

  /** `appendDuration`. */
  method AppendDuration(values: seq<int>, duration: int) returns (result: seq<int>)
    ensures result == Appended(values, duration)
  {
    if duration <= 0 {
      return values;
    }
    result := values + [duration];
    if |result| > MAX_DURATIONS {
      result := result[|result| - MAX_DURATIONS..];
    }
  }

  function Appended(values: seq<int>, duration: int): (result: seq<int>)
    ensures duration > 0 ==> 0 < |result| <= MAX_DURATIONS && result[|result| - 1] == duration
  {
    if duration <= 0 then values else LastN(values + [duration], MAX_DURATIONS)
  }

  function Recorded(value: JobStats, failed: bool, duration: int): JobStats {
    var counted := value.(runs := value.runs + 1, lastStatus := StatusName(failed));
    if failed
    then counted.(failures := value.failures + 1, failDurations := Appended(value.failDurations, duration))
    else counted.(passDurations := Appended(value.passDurations, duration))
  }

  function RecordAll(stats: Stats, entries: seq<Entry>): Stats {
    if entries == [] then stats
    else
      var before, last := RecordAll(stats, entries[..|entries| - 1]), entries[|entries| - 1];
      before[last.key := Recorded(Get(before, last.key), last.failed, last.duration)]
  }

  lemma LastNAppend(s: seq<int>, x: int)
    ensures LastN(LastN(s, MAX_DURATIONS) + [x], MAX_DURATIONS) == LastN(s + [x], MAX_DURATIONS)
  {}

  /** Updating the bounded summary of a log gives the summary of the longer log. */
  lemma SummaryStep(log: seq<Entry>, e: Entry, key: string)
    ensures Summary(log + [e], key) ==
            if e.key == key then Recorded(Summary(log, key), e.failed, e.duration) else Summary(log, key)
  {
    assert (log + [e])[..|log|] == log;
    LastNAppend(Durations(log, key, false), e.duration);
    LastNAppend(Durations(log, key, true), e.duration);
  }

  /** The statistics summarise the full log, whatever has been dropped from the lists on the way. */
  lemma {:induction false} RecordAllSummarises(stats: Stats, log: seq<Entry>, entries: seq<Entry>)
    requires Summarises(stats, log)
    ensures Summarises(RecordAll(stats, entries), log + entries)
    decreases |entries|
  {
    if entries == [] {
      assert log + entries == log;
    } else {
      var init, last := entries[..|entries| - 1], entries[|entries| - 1];
      RecordAllSummarises(stats, log, init);
      assert log + entries == log + init + [last];
      forall key ensures Get(RecordAll(stats, entries), key) == Summary(log + entries, key) {
        assert Get(RecordAll(stats, init), key) == Summary(log + init, key);
        SummaryStep(log + init, last, key);
      }
    }
  }

  lemma {:induction false} SummaryBounds(log: seq<Entry>, key: string)
    ensures Summary(log, key).failures <= Summary(log, key).runs
    ensures |Durations(log, key, true)| <= Failures(log, key)
    ensures |Summary(log, key).failDurations| <= Summary(log, key).failures
    ensures |Summary(log, key).failDurations| <= MAX_DURATIONS && |Summary(log, key).passDurations| <= MAX_DURATIONS
    ensures |Durations(log, key, false)| <= Runs(log, key) - Failures(log, key)
  {
    if log != [] { SummaryBounds(log[..|log| - 1], key); }
  }

  // ---- the statistics file ----

  /** The first-schema list becomes the pass durations. */
  function Migrated(value: JobStats): JobStats {
    value.(passDurations := value.passDurations + value.legacy, legacy := [])
  }

  function MigrateAll(stats: Stats): Stats { map key | key in stats :: Migrated(stats[key]) }

  /** The statistics on file, migrated; no file reads as no statistics. */
  function Loaded(content: Option<Stats>): Stats {
    if content.None? then map[] else MigrateAll(content.value)
  }

  /** The file after an update: it is written only if an outcome counts. */
  function Updated(content: Option<Stats>, entries: seq<Entry>): Option<Stats> {
    if entries == [] then content else Some(RecordAll(Loaded(content), entries))
  }

  /** The file after a sequence of updates, starting without a file. */
  function AfterUpdates(updates: seq<seq<Entry>>): Option<Stats> {
    if updates == [] then None else Updated(AfterUpdates(updates[..|updates| - 1]), updates[|updates| - 1])
  }

  function Flat(updates: seq<seq<Entry>>): seq<Entry> {
    if updates == [] then [] else Flat(updates[..|updates| - 1]) + updates[|updates| - 1]
  }

  lemma MigrateSummarised(stats: Stats, log: seq<Entry>)
    requires Summarises(stats, log)
    ensures Summarises(MigrateAll(stats), log)
  {
    forall key ensures Get(MigrateAll(stats), key) == Summary(log, key) {
      assert Get(stats, key) == Summary(log, key);
      assert Get(stats, key).passDurations + [] == Get(stats, key).passDurations;
    }
  }

  /** After any sequence of updates the file loads as the summary of the whole log. */
  lemma {:induction false} UpdatesSummarise(updates: seq<seq<Entry>>)
    ensures Summarises(Loaded(AfterUpdates(updates)), Flat(updates))
  {
    if updates != [] {
      var init, last := updates[..|updates| - 1], updates[|updates| - 1];
      UpdatesSummarise(init);
      if last == [] {
        assert Flat(updates) == Flat(init);
      } else {
        RecordAllSummarises(Loaded(AfterUpdates(init)), Flat(init), last);
        MigrateSummarised(RecordAll(Loaded(AfterUpdates(init)), last), Flat(updates));
      }
    }
  }

  /** One outcome of a result, if it counts. */
  function EntryOf(workflow: Workflow, job: Job, keyFor: (Workflow, Job) -> Option<string>): Option<Entry> {
    if job.status != StatusPass && job.status != StatusFail then None
    else match keyFor(workflow, job)
      case None => None
      case Some(key) => Some(Entry(key, job.status == StatusFail, job.durationMS))
  }

  /** The outcomes of the first `n` jobs of a workflow that count. */
  function JobEntries(workflow: Workflow, n: nat, keyFor: (Workflow, Job) -> Option<string>): seq<Entry>
    requires n <= |workflow.jobs|
  {
    if n == 0 then []
    else
      var init, last := JobEntries(workflow, n - 1, keyFor), EntryOf(workflow, workflow.jobs[n - 1], keyFor);
      if last.Some? then init + [last.value] else init
  }

  /** The outcomes of the first `n` workflows of a result that count. */
  function Entries(workflows: seq<Workflow>, n: nat, keyFor: (Workflow, Job) -> Option<string>): seq<Entry>
    requires n <= |workflows|
  {
    if n == 0 then []
    else Entries(workflows, n - 1, keyFor) + JobEntries(workflows[n - 1], |workflows[n - 1].jobs|, keyFor)
  }

  lemma EntriesStep(workflows: seq<Workflow>, w: nat, keyFor: (Workflow, Job) -> Option<string>)
    requires w < |workflows|
    ensures Entries(workflows, w + 1, keyFor) ==
            Entries(workflows, w, keyFor) + JobEntries(workflows[w], |workflows[w].jobs|, keyFor)
  {
  }

  class StatsFile {
    var content: Option<Stats>  // None: no file yet

    constructor ()
      ensures content == None
    {
      content := None;
    }

    ghost function Current(): Stats
      reads this
    {
      Loaded(content)
    }

    method Load() returns (stats: Stats)
      ensures stats == Current()
    {
      if content.None? {
        return map[];
      }
      stats := content.value;
      var todo := stats.Keys;
      while todo != {}
        invariant todo <= stats.Keys == content.value.Keys
        invariant forall key | key in stats :: stats[key] == if key in todo then content.value[key] else Migrated(content.value[key])
        decreases |todo|
      {
        var key :| key in todo;
        todo := todo - {key};
        if |stats[key].legacy| > 0 {
          stats := stats[key := stats[key].(passDurations := stats[key].passDurations + stats[key].legacy, legacy := [])];
        } else {
          assert content.value[key].passDurations + [] == content.value[key].passDurations;
        }
      }
    }

    /** Records the outcomes of a result; the file is written only if one of them counts. */
    method UpdateWithKeys(workflows: seq<Workflow>, keyFor: (Workflow, Job) -> Option<string>)
      modifies this
      ensures content == Updated(old(content), Entries(workflows, |workflows|, keyFor))
    {
      var stats := Load();
      var changed := false;
      for w := 0 to |workflows|
        invariant content == old(content)
        invariant stats == RecordAll(old(Current()), Entries(workflows, w, keyFor))
        invariant changed <==> Entries(workflows, w, keyFor) != []
      {
        var recorded;
        stats, recorded := RecordWorkflow(stats, workflows[w], keyFor, old(Current()), Entries(workflows, w, keyFor));
        changed := changed || recorded;
        EntriesStep(workflows, w, keyFor);
      }
      if changed {
        content := Some(stats);
      }
    }
  }

  /** The loop over the jobs of one workflow; `before` has already been recorded on top of `base`. */
  method RecordWorkflow(stats: Stats, workflow: Workflow, keyFor: (Workflow, Job) -> Option<string>, ghost base: Stats, ghost before: seq<Entry>)
    returns (updated: Stats, recorded: bool)
    requires stats == RecordAll(base, before)
    ensures updated == RecordAll(base, before + JobEntries(workflow, |workflow.jobs|, keyFor))
    ensures recorded <==> JobEntries(workflow, |workflow.jobs|, keyFor) != []
  {
    updated, recorded := stats, false;
    assert before + [] == before;
    for j := 0 to |workflow.jobs|
      invariant RecordedUpTo(updated, recorded, base, before, JobEntries(workflow, j, keyFor))
    {
      var counted;
      updated, counted := RecordNext(updated, workflow, j, keyFor, base, before);
      recorded := recorded || counted;
    }
  }

  ghost predicate RecordedUpTo(stats: Stats, recorded: bool, base: Stats, before: seq<Entry>, entries: seq<Entry>) {
    stats == RecordAll(base, before + entries) && (recorded <==> entries != [])
  }

  /** The loop body for job `j`. */
  method RecordNext(stats: Stats, workflow: Workflow, j: nat, keyFor: (Workflow, Job) -> Option<string>, ghost base: Stats, ghost before: seq<Entry>)
    returns (updated: Stats, counted: bool)
    requires j < |workflow.jobs| && stats == RecordAll(base, before + JobEntries(workflow, j, keyFor))
    ensures updated == RecordAll(base, before + JobEntries(workflow, j + 1, keyFor))
    ensures JobEntries(workflow, j + 1, keyFor) != [] <==> counted || JobEntries(workflow, j, keyFor) != []
  {
    JobStep(base, before, workflow, j, keyFor);
    updated, counted := RecordIfCounts(stats, workflow, workflow.jobs[j], keyFor);
  }

  /** Lines 137-155 of history.go. */
  method RecordIfCounts(stats: Stats, workflow: Workflow, job: Job, keyFor: (Workflow, Job) -> Option<string>)
    returns (updated: Stats, counted: bool)
    ensures var e := EntryOf(workflow, job, keyFor);
            && counted == e.Some?
            && updated == if e.None? then stats else stats[e.value.key := Recorded(Get(stats, e.value.key), e.value.failed, e.value.duration)]
  {
    if job.status != StatusPass && job.status != StatusFail {
      return stats, false;
    }
    var key := keyFor(workflow, job);
    if key.None? {
      return stats, false;
    }
    updated := RecordJob(stats, key.value, job.status == StatusFail, job.durationMS);
    counted := true;
  }

  /** Lines 144-154 of history.go. */
  method RecordJob(stats: Stats, key: string, failed: bool, duration: int) returns (updated: Stats)
    ensures updated == stats[key := Recorded(Get(stats, key), failed, duration)]
  {
    var value := Get(stats, key);
    value := value.(runs := value.runs + 1);
    if failed {
      var durations := AppendDuration(value.failDurations, duration);
      value := value.(failures := value.failures + 1, failDurations := durations);
    } else {
      var durations := AppendDuration(value.passDurations, duration);
      value := value.(passDurations := durations);
    }
    value := value.(lastStatus := StatusName(failed));
    updated := stats[key := value];
  }

  lemma RecordAppend(stats: Stats, entries: seq<Entry>, e: Entry)
    ensures RecordAll(stats, entries + [e]) ==
            RecordAll(stats, entries)[e.key := Recorded(Get(RecordAll(stats, entries), e.key), e.failed, e.duration)]
  {
    assert (entries + [e])[..|entries|] == entries;
  }

  lemma JobStep(base: Stats, before: seq<Entry>, workflow: Workflow, j: nat, keyFor: (Workflow, Job) -> Option<string>)
    requires j < |workflow.jobs|
    ensures var done, e := RecordAll(base, before + JobEntries(workflow, j, keyFor)), EntryOf(workflow, workflow.jobs[j], keyFor);
            RecordAll(base, before + JobEntries(workflow, j + 1, keyFor)) ==
            if e.None? then done else done[e.value.key := Recorded(Get(done, e.value.key), e.value.failed, e.value.duration)]
    ensures JobEntries(workflow, j + 1, keyFor) != [] <==>
            JobEntries(workflow, j, keyFor) != [] || EntryOf(workflow, workflow.jobs[j], keyFor).Some?
  {
    var so, e := JobEntries(workflow, j, keyFor), EntryOf(workflow, workflow.jobs[j], keyFor);
    if e.Some? {
      RecordAppend(base, before + so, e.value);
      assert before + (so + [e.value]) == before + so + [e.value];
    }
  }

  // ---- the median ----

  ghost predicate Ascending(s: seq<int>) { forall a, b | 0 <= a < b < |s| :: s[a] <= s[b] }

  function InsertAscending(s: seq<int>, x: int): (t: seq<int>)
    ensures |t| == |s| + 1
  {
    if s == [] || s[|s| - 1] <= x then s + [x] else InsertAscending(s[..|s| - 1], x) + [s[|s| - 1]]
  }

  function Sort(values: seq<int>): (t: seq<int>)
    ensures |t| == |values|
  {
    if values == [] then [] else InsertAscending(Sort(values[..|values| - 1]), values[|values| - 1])
  }

  lemma {:induction false} InsertKeeps(s: seq<int>, x: int)
    ensures multiset(InsertAscending(s, x)) == multiset(s) + multiset{x}
  {
    if s != [] && s[|s| - 1] > x {
      InsertKeeps(s[..|s| - 1], x);
      assert s == s[..|s| - 1] + [s[|s| - 1]];
    }
  }

  lemma AppendAscends(s: seq<int>, last: int)
    requires Ascending(s) && forall y | y in multiset(s) :: y <= last
    ensures Ascending(s + [last])
  {
    forall a | 0 <= a < |s| ensures s[a] <= last {
      assert s[a] in multiset(s);
    }
  }

  lemma {:induction false} InsertAscends(s: seq<int>, x: int)
    requires Ascending(s)
    ensures Ascending(InsertAscending(s, x))
    decreases |s|
  {
    if s != [] && s[|s| - 1] > x {
      var init, last := WithoutLast(s);
      InsertAscends(init, x);
      InsertKeeps(init, x);
      forall y | y in multiset(init) ensures y <= last { LastIsLargest(s, y); }
      AppendAscends(InsertAscending(init, x), last);
    } else {
      forall y | y in multiset(s) ensures y <= x { LastIsLargest(s, y); }
      AppendAscends(s, x);
    }
  }

  lemma {:induction false} SortSorts(values: seq<int>)
    ensures Ascending(Sort(values)) && multiset(Sort(values)) == multiset(values)
  {
    if values != [] {
      SortSorts(values[..|values| - 1]);
      InsertAscends(Sort(values[..|values| - 1]), values[|values| - 1]);
      InsertKeeps(Sort(values[..|values| - 1]), values[|values| - 1]);
      assert values == values[..|values| - 1] + [values[|values| - 1]];
    }
  }

  /** `median` sorts a private copy and takes the element at index len/2. */
  function Median(values: seq<int>): int {
    if values == [] then 0 else Sort(values)[|values| / 2]
  }

  /** The median is the order statistic at index len/2 of any sorted arrangement of the values. */
  lemma MedianIsOrderStatistic(values: seq<int>, t: seq<int>)
    requires values != [] && Ascending(t) && multiset(t) == multiset(values)
    ensures |t| == |values| && Median(values) == t[|t| / 2]
  {
    SortSorts(values);
    AscendingUnique(Sort(values), t);
  }

  lemma LastIsLargest(s: seq<int>, x: int)
    requires Ascending(s) && x in multiset(s)
    ensures s != [] && x <= s[|s| - 1]
  {
    assert x in s;
  }

  lemma WithoutLast(s: seq<int>) returns (init: seq<int>, last: int)
    requires s != [] && Ascending(s)
    ensures init == s[..|s| - 1] && s == init + [last] && last == s[|s| - 1]
    ensures multiset(init) == multiset(s) - multiset{last} && last in multiset(s)
    ensures Ascending(init)
  {
    init, last := s[..|s| - 1], s[|s| - 1];
    assert s == init + [last];
  }

  /** There is only one way to sort, so the median depends on the values alone and not on their order. */
  lemma {:induction false} AscendingUnique(s: seq<int>, t: seq<int>)
    requires Ascending(s) && Ascending(t) && multiset(s) == multiset(t)
    ensures s == t
    decreases |s|
  {
    if s == [] {
      assert |multiset(t)| == 0;
    } else {
      assert multiset(t)[s[0]] > 0;
      var s', x := WithoutLast(s);
      LastIsLargest(t, x);
      var t', y := WithoutLast(t);
      LastIsLargest(s, y);
      assert x == y;
      AscendingUnique(s', t');
    }
  }

  // ---- ranking, over exact reals ----

  function Max(left: int, right: int): int { if left > right then left else right }

  /** `detectionMS`: recorded failures first, then passes, then the default; never below a second. */
  function DetectionMS(value: JobStats): (ms: int)
    ensures ms >= 1000
  {
    if Median(value.failDurations) > 0 then Max(Median(value.failDurations), 1000)
    else if Median(value.passDurations) > 0 then Max(Median(value.passDurations), 1000)
    else DEFAULT_DETECT_MS
  }

  lemma MedianIsMember(values: seq<int>)
    requires values != []
    ensures Median(values) in values
  {
    SortSorts(values);
    assert Median(values) in multiset(Sort(values));
  }

  /** Once failures have been timed, they alone decide: the pass durations do not matter. */
  lemma FailuresDecide(value: JobStats, other: seq<int>)
    requires value.failDurations != [] && forall d | d in value.failDurations :: d > 0
    ensures DetectionMS(value.(passDurations := other)) == DetectionMS(value) == Max(Median(value.failDurations), 1000)
  {
    MedianIsMember(value.failDurations);
  }

  /** Until then the pass durations decide, and without any the default. */
  lemma PassesDecide(value: JobStats)
    requires value.failDurations == [] && forall d | d in value.passDurations :: d > 0
    ensures DetectionMS(value) == if value.passDurations == [] then DEFAULT_DETECT_MS else Max(Median(value.passDurations), 1000)
  {
    if value.passDurations != [] { MedianIsMember(value.passDurations); }
  }

  function Clamp(value: real, low: real, high: real): real {
    if value < low then low else if value > high then high else value
  }

  function Prior(heuristic: real): (prior: real)
    ensures 0.10 <= prior <= 0.35
  {
    0.10 + 0.25 * Clamp(heuristic, 0.0, 100.0) / 100.0
  }

  /** The failure rate smoothed by a prior worth two runs. */
  function Probability(prior: real, failures: int, runs: int): real
    requires runs >= 0
  {
    (failures as real + prior * 2.0) / (runs as real + 2.0)
  }

  function Score(probability: real, ms: int): real
    requires ms > 0
  {
    probability / (ms as real / 1000.0) * 3600.0
  }

  function Rank(heuristic: real, value: JobStats): real
    requires value.runs >= 0
  {
    var score := Score(Probability(Prior(heuristic), value.failures, value.runs), DetectionMS(value));
    if value.lastStatus == StatusText(StatusFail) then score * 3.0 else score
  }

  lemma CancelLess(x: real, y: real, c: real)
    requires c > 0.0 && x * c < y * c
    ensures x < y
  {}

  lemma CancelAtMost(x: real, y: real, c: real)
    requires c > 0.0 && x * c <= y * c
    ensures x <= y
  {}

  lemma Ratio(a: real, b: real)
    requires b > 0.0
    ensures a / b * b == a
  {}

  lemma Scale(low: real, high: real, n: real)
    requires low <= high && n >= 0.0
    ensures low * n <= high * n
  {}

  lemma Distribute(x: real, n: real)
    ensures x * (n + 2.0) == x * n + x * 2.0
  {}

  /** A mean of `n` parts `a` and two parts `b` lies between them. */
  lemma MeanBetween(a: real, b: real, p: real, n: real)
    requires n > 0.0 && p * (n + 2.0) == a * n + b * 2.0
    ensures b <= a ==> b <= p <= a
    ensures a <= b ==> a <= p <= b
  {
    Distribute(a, n);
    Distribute(b, n);
    if b <= a {
      Scale(b, a, n);
      CancelAtMost(b, p, n + 2.0);
      CancelAtMost(p, a, n + 2.0);
    }
    if a <= b {
      Scale(a, b, n);
      CancelAtMost(a, p, n + 2.0);
      CancelAtMost(p, b, n + 2.0);
    }
  }

  /** The smoothed probability lies between the prior and the observed failure rate. */
  lemma ProbabilityBetween(prior: real, failures: int, runs: int)
    requires 0 <= failures <= runs && runs > 0
    ensures var p, rate := Probability(prior, failures, runs), failures as real / runs as real;
            (prior <= p <= rate) || (rate <= p <= prior)
  {
    Ratio(failures as real, runs as real);
    Ratio(failures as real + prior * 2.0, runs as real + 2.0);
    MeanBetween(failures as real / runs as real, prior, Probability(prior, failures, runs), runs as real);
  }

  lemma ProbabilityBounds(prior: real, failures: int, runs: int)
    requires 0 <= failures <= runs && 0.10 <= prior <= 0.35
    ensures 0.0 < Probability(prior, failures, runs) < 1.0
  {
    var p, n := Probability(prior, failures, runs), runs as real + 2.0;
    Ratio(failures as real + prior * 2.0, n);
    assert p * n == failures as real + prior * 2.0;
    assert 0.0 * n < p * n < 1.0 * n;
    CancelLess(0.0, p, n);
    CancelLess(p, 1.0, n);
  }

  /** More failures mean a higher probability. */
  lemma ProbabilityIncreases(prior: real, less: int, more: int, runs: int)
    requires 0 <= runs && less < more
    ensures Probability(prior, less, runs) < Probability(prior, more, runs)
  {
    var n := runs as real + 2.0;
    Ratio(less as real + prior * 2.0, n);
    Ratio(more as real + prior * 2.0, n);
    CancelLess(Probability(prior, less, runs), Probability(prior, more, runs), n);
  }

  lemma ScoreTimes(probability: real, ms: int)
    requires ms > 0
    ensures Score(probability, ms) * ms as real == probability * 3600000.0
  {
    var s := ms as real / 1000.0;
    Ratio(probability, s);
    Ratio(ms as real, 1000.0);
    assert probability / s * 3600.0 * (s * 1000.0) == (probability / s * s) * 3600000.0;
  }

  lemma ScoreBounds(probability: real, ms: int)
    requires 0.0 < probability < 1.0 && ms >= 1000
    ensures 0.0 < Score(probability, ms) < 3600.0
  {
    ScoreTimes(probability, ms);
    CancelLess(0.0, Score(probability, ms), ms as real);
    CancelLess(Score(probability, ms), 3600.0, ms as real);
  }

  lemma ScoreIncreases(less: real, more: real, ms: int)
    requires less < more && ms > 0
    ensures Score(less, ms) < Score(more, ms)
  {
    ScoreTimes(less, ms);
    ScoreTimes(more, ms);
    CancelLess(Score(less, ms), Score(more, ms), ms as real);
  }

  lemma ScoreDecreases(probability: real, faster: int, slower: int)
    requires probability > 0.0 && 0 < faster < slower
    ensures Score(probability, slower) < Score(probability, faster)
  {
    ScoreTimes(probability, faster);
    ScoreTimes(probability, slower);
    var s := Score(probability, slower);
    CancelLess(0.0, s, slower as real);
    assert s * faster as real < s * slower as real;
    CancelLess(s, Score(probability, faster), faster as real);
  }

  // ---- what the ranks promise ----

  /** Ranks are positive and below 3600, or below 10800 for the job that failed last. */
  lemma RankBounds(heuristic: real, value: JobStats)
    requires 0 <= value.failures <= value.runs
    ensures 0.0 < Rank(heuristic, value) < (if value.lastStatus == StatusText(StatusFail) then 10800.0 else 3600.0)
  {
    ProbabilityBounds(Prior(heuristic), value.failures, value.runs);
    ScoreBounds(Probability(Prior(heuristic), value.failures, value.runs), DetectionMS(value));
  }

  /** Of two jobs that differ in their failures only, the one that failed more often ranks higher. */
  lemma RankByFailures(heuristic: real, value: JobStats, more: int)
    requires 0 <= value.failures < more <= value.runs
    ensures Rank(heuristic, value) < Rank(heuristic, value.(failures := more))
  {
    ProbabilityIncreases(Prior(heuristic), value.failures, more, value.runs);
    ScoreIncreases(Probability(Prior(heuristic), value.failures, value.runs),
                   Probability(Prior(heuristic), more, value.runs), DetectionMS(value));
  }

  /** Of two jobs with the same record, the one whose failure shows sooner ranks higher. */
  lemma RankByDetection(heuristic: real, left: JobStats, right: JobStats)
    requires 0 <= left.failures <= left.runs && left.failures == right.failures && left.runs == right.runs
    requires left.lastStatus == right.lastStatus && DetectionMS(left) < DetectionMS(right)
    ensures Rank(heuristic, right) < Rank(heuristic, left)
  {
    ProbabilityBounds(Prior(heuristic), left.failures, left.runs);
    ScoreDecreases(Probability(Prior(heuristic), left.failures, left.runs), DetectionMS(left), DetectionMS(right));
  }

  /** Without history jobs are ordered exactly as the name heuristic orders them. */
  lemma RankByHeuristic(less: real, more: real)
    requires 0.0 <= less < more <= 100.0
    ensures Rank(less, NO_STATS) < Rank(more, NO_STATS)
  {
    var p, q := Probability(Prior(less), 0, 0), Probability(Prior(more), 0, 0);
    assert p == Prior(less) && q == Prior(more);
    ScoreIncreases(p, q, DetectionMS(NO_STATS));
  }
}
