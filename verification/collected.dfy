/**
 What a collected entry makes the model show (internal/engine/logging.go:66-205): which results of act read
 as a failure, which as a pass, and where the lines of a job end up.
 */
module Collected {
  import opened Model
  import opened StepOrder
  import opened Collector
  import LogNames

  // ---- results ----

  /** The text is `word` up to the case of its letters; `word` is in lower case. */
  predicate EqualFold(text: string, word: string) {
    && |text| == |word|
    && forall k | 0 <= k < |text| :: text[k] == word[k] || ('A' <= text[k] <= 'Z' && text[k] as int + 32 == word[k] as int)
  }

  predicate LowerCase(word: string) { forall k | 0 <= k < |word| :: 'a' <= word[k] <= 'z' }

  lemma LoweredIs(text: string, word: string)
    requires LowerCase(word)
    ensures Lowered(text) == word <==> EqualFold(text, word)
  {
    var lowered := Lowered(text);
    if lowered == word {
      forall k | 0 <= k < |text| ensures text[k] == word[k] || ('A' <= text[k] <= 'Z' && text[k] as int + 32 == word[k] as int) {
        assert lowered[k] == word[k];
      }
    }
  }

  /** A status that has the text of one of the ten the model knows is that one. */
  predicate Canonical(status: Status) {
    && (StatusText(status) == "pass" ==> status == StatusPass)
    && (StatusText(status) == "fail" ==> status == StatusFail)
    && (StatusText(status) == "partial" ==> status == StatusPartial)
    && (StatusText(status) == "error" ==> status == StatusError)
    && (StatusText(status) == "cancelled" ==> status == StatusCancelled)
    && (StatusText(status) == "skip" ==> status == StatusSkip)
    && (StatusText(status) == "blocked" ==> status == StatusBlocked)
    && (StatusText(status) == "remote_only" ==> status == StatusRemote)
    && (StatusText(status) == "running" ==> status == StatusRunning)
    && (StatusText(status) == "pending" ==> status == StatusPending)
  }

  /** What the result act gives a step makes of its status. */
  predicate Reads(status: Status, stepResult: string) {
    && (EqualFold(stepResult, "success") ==> status == StatusPass)
    && (EqualFold(stepResult, "failure") ==> status == StatusFail)
    && (!EqualFold(stepResult, "success") && !EqualFold(stepResult, "failure") ==> StatusText(status) == stepResult && Canonical(status))
  }

  lemma StatusReads(stepResult: string)
    ensures Reads(StepStatus(stepResult), stepResult)
  {
    LoweredIs(stepResult, "success");
    LoweredIs(stepResult, "failure");
  }

  /** In the steps of a job, a step reads as its latest result says, from its first mention to that result; without one it is running. */
  lemma StepShowsLatestResult(history: seq<Logged>, job: string, list: seq<JobStep>, step: JobStep)
    requires StepList(history, job, list) && step in list
    ensures forall k: nat | IsVerdict(history, job, step.name, k) ::
              && Reads(step.status, history[k].stepResult) && step.completedAt == Some(history[k].now)
              && step.startedAt.Some? && step.durationMS == history[k].now - step.startedAt.value
    ensures (forall k | 0 <= k < |history| && history[k].job == job && history[k].step == step.name :: history[k].stepResult == "") ==>
              step.status == StatusRunning && step.completedAt == None && step.durationMS == 0
    ensures exists k | 0 <= k < |history| && history[k].job == job && history[k].step == step.name ::
              step.startedAt == Some(history[k].now) && forall m | 0 <= m < k :: history[m].job != job || history[m].step != step.name
  {
    forall k: nat | IsVerdict(history, job, step.name, k) ensures Reads(step.status, history[k].stepResult) {
      StatusReads(history[k].stepResult);
      assert Judged(step, history[k]);
    }
    var k: nat :| IsFirst(history, job, Some(step.name), k) && step.startedAt == Some(history[k].now);
    assert Concerns(history[k], job, Some(step.name));
    assert forall m | 0 <= m < k :: !Concerns(history[m], job, Some(step.name));
  }

  /** A failure that is the latest result of a step shows on the job as `Apply` leaves it, and so does a success. */
  lemma ResultShows(history: seq<Logged>, workflowID: string, before: Job, after: Job, k: nat) returns (step: JobStep)
    requires Annotates(history, workflowID, before, after)
    requires k < |history| && history[k].job == before.id && history[k].step != "" && history[k].stepResult != ""
    requires forall m | k < m < |history| && history[m].job == before.id && history[m].step == history[k].step :: history[m].stepResult == ""
    ensures step in after.steps && step.name == history[k].step
    ensures Reads(step.status, history[k].stepResult) && step.completedAt == Some(history[k].now)
  {
    assert history[k].job in Jobs(history) && history[k].step in StepNames(history, before.id);
    step :| step in after.steps && step.name == history[k].step;
    StepShowsLatestResult(history, before.id, after.steps, step);
    assert IsVerdict(history, before.id, step.name, k);
  }

  /** The entries that report a failure of the job they are filed under. */
  lemma ReportsFailureMeans(entry: Entry, job: string)
    ensures ReportsFailure(entry, job) <==> EqualFold(entry.stepResult, "failure") || (entry.errorLevel && job != "greenrun")
  {
    LoweredIs(entry.stepResult, "failure");
  }

  // ---- log files ----

  lemma {:induction false} TextAppend(lines: seq<string>, more: seq<string>)
    ensures Text(lines + more) == Text(lines) + Text(more)
  {
    if more == [] {
      assert lines + more == lines;
    } else {
      var init, last, whole := more[..|more| - 1], more[|more| - 1], lines + more;
      TextAppend(lines, init);
      assert whole[..|whole| - 1] == lines + init && whole[|whole| - 1] == last;
      assert Text(lines) + (Text(init) + last + "\n") == Text(lines) + Text(init) + last + "\n";
    }
  }

  /** A log file is its lines one after the other, each closed by a line feed. */
  lemma TextCons(line: string, more: seq<string>)
    ensures Text([line] + more) == line + "\n" + Text(more)
  {
    TextAppend([line], more);
    assert [line][..0] == [];
    assert Text([line]) == line + "\n";
  }

  predicate OneLine(line: string) { '\n' !in line }

  /** Where the first line ends. */
  function LineEnd(text: string): nat { if text == "" || text[0] == '\n' then 0 else 1 + LineEnd(text[1..]) }

  lemma {:induction false} LineEndAfter(line: string, rest: string)
    requires OneLine(line)
    ensures LineEnd(line + "\n" + rest) == |line|
  {
    if line != "" {
      LineEndAfter(line[1..], rest);
      assert (line + "\n" + rest)[1..] == line[1..] + "\n" + rest;
    }
  }

  lemma FirstLine(x: string, y: string, s: string, t: string)
    requires OneLine(x) && OneLine(y) && x + "\n" + s == y + "\n" + t
    ensures x == y && s == t
  {
    var left, right := x + "\n" + s, y + "\n" + t;
    LineEndAfter(x, s);
    LineEndAfter(y, t);
    assert left[..|x|] == x && right[..|y|] == y && left[|x| + 1..] == s && right[|y| + 1..] == t;
  }

  /** Nothing is lost in a log file: messages without line feeds can be read back from it. */
  lemma {:induction false} LinesCanBeReadBack(lines: seq<string>, other: seq<string>)
    requires forall line | line in lines + other :: OneLine(line)
    requires Text(lines) == Text(other)
    ensures lines == other
  {
    assert (lines == [] <==> Text(lines) == "") && (other == [] <==> Text(other) == "");
    if lines != [] {
      assert lines == [lines[0]] + lines[1..] && other == [other[0]] + other[1..];
      TextCons(lines[0], lines[1..]);
      TextCons(other[0], other[1..]);
      FirstLine(lines[0], other[0], Text(lines[1..]), Text(other[1..]));
      assert forall line | line in lines[1..] + other[1..] :: line in lines + other;
      LinesCanBeReadBack(lines[1..], other[1..]);
    }
  }

  /** The path a job is given for its log: the words of both IDs, joined by dashes. */
  lemma LogIsNamedByWords(history: seq<Logged>, workflowID: string, before: Job, after: Job)
    requires Annotates(history, workflowID, before, after) && before.id in Jobs(history)
    ensures after.log == "logs/" + LogNames.Join(LogNames.Words(workflowID) + LogNames.Words(before.id)) + ".log"
  {
    LogNames.WordsAcross(workflowID, '-', before.id);
    assert LogNames.LogKey(workflowID, before.id) == workflowID + ['-'] + before.id;
    LogNames.SafeNameJoinsWords(LogNames.LogKey(workflowID, before.id));
  }
}
