/** The names of log files (internal/store/store.go, safeName; internal/engine/logging.go:170). */
module LogNames {

  predicate IsNameChar(c: char) { 'a' <= c <= 'z' || '0' <= c <= '9' }

  function Lower(c: char): char { if 'A' <= c <= 'Z' then (c as int + 32) as char else c }

  /** The builder's text after `value`: lowered name characters, and one dash for a run of others. */
  function Built(value: string): string {
    if value == "" then ""
    else
      var built, c := Built(value[..|value| - 1]), Lower(value[|value| - 1]);
      if IsNameChar(c) then built + [c]
      else if built != "" && built[|built| - 1] != '-' then built + "-"
      else built
  }

  function TrimFront(s: string): string { if s != "" && s[0] == '-' then TrimFront(s[1..]) else s }

  function TrimBack(s: string): string { if s != "" && s[|s| - 1] == '-' then TrimBack(s[..|s| - 1]) else s }

  /** The name of the log of `value`, without its extension. */
  function SafeName(value: string): string { TrimBack(TrimFront(Built(value))) }

  /** `safeName`: the loop over a builder. */
  method MakeSafeName(value: string) returns (name: string)
    ensures name == SafeName(value)
    ensures name == Join(Words(value))
  {
    var builder := "";
    for k := 0 to |value|
      invariant builder == Built(value[..k])
    {
      assert value[..k + 1][..k] == value[..k];
      var c := Lower(value[k]);
      if IsNameChar(c) {
        builder := builder + [c];
      } else if |builder| > 0 && builder[|builder| - 1] != '-' {
        builder := builder + "-";
      }
    }
    assert value[..|value|] == value;
    SafeNameJoinsWords(value);
    name := TrimBack(TrimFront(builder));
  }

  // ---- what a safe name keeps of a value: its words ----

  predicate EndsInWord(value: string) { value != "" && IsNameChar(Lower(value[|value| - 1])) }

  /** The maximal runs of name characters in the lowered value. */
  function Words(value: string): (words: seq<string>)
    ensures EndsInWord(value) ==> words != []
  {
    if value == "" then []
    else
      var before, c := value[..|value| - 1], Lower(value[|value| - 1]);
      var words := Words(before);
      if !IsNameChar(c) then words
      else if EndsInWord(before) then words[..|words| - 1] + [words[|words| - 1] + [c]]
      else words + [[c]]
  }

  predicate IsWord(word: string) { word != "" && forall k | 0 <= k < |word| :: IsNameChar(word[k]) }

  predicate AreWords(words: seq<string>) { forall k | 0 <= k < |words| :: IsWord(words[k]) }

  /** The words with single dashes between them. */
  function Join(words: seq<string>): string {
    if words == [] then ""
    else if |words| == 1 then words[0]
    else Join(words[..|words| - 1]) + "-" + words[|words| - 1]
  }

  lemma {:induction false} WordsAreWords(value: string)
    ensures AreWords(Words(value))
  {
    if value != "" { WordsAreWords(value[..|value| - 1]); }
  }

  /** Joined words neither begin nor end with a dash. */
  lemma {:induction false} JoinEnds(words: seq<string>)
    requires AreWords(words) && words != []
    ensures Join(words) != "" && IsNameChar(Join(words)[0]) && IsNameChar(Join(words)[|Join(words)| - 1])
  {
    if |words| > 1 { JoinEnds(words[..|words| - 1]); }
  }

  lemma JoinGrown(words: seq<string>, c: char)
    requires words != []
    ensures Join(words[..|words| - 1] + [words[|words| - 1] + [c]]) == Join(words) + [c]
  {
    var grown := words[..|words| - 1] + [words[|words| - 1] + [c]];
    assert grown[..|grown| - 1] == words[..|words| - 1];
  }

  lemma JoinNewWord(words: seq<string>, word: string)
    ensures Join(words + [word]) == if words == [] then word else Join(words) + "-" + word
  {
    assert (words + [word])[..|words|] == words;
  }

  lemma {:induction false} BuiltJoinsWords(value: string)
    ensures Built(value) == Join(Words(value)) + (if EndsInWord(value) || Words(value) == [] then "" else "-")
  {
    if value != "" {
      var before, c := value[..|value| - 1], Lower(value[|value| - 1]);
      BuiltJoinsWords(before);
      WordsAreWords(before);
      if Words(before) != [] { JoinEnds(Words(before)); }
      if !IsNameChar(c) {
      } else if EndsInWord(before) {
        JoinGrown(Words(before), c);
      } else {
        JoinNewWord(Words(before), [c]);
      }
    }
  }

  /** A safe name is the words of the value joined by dashes: nothing else of the value survives. */
  lemma SafeNameJoinsWords(value: string)
    ensures SafeName(value) == Join(Words(value))
  {
    BuiltJoinsWords(value);
    WordsAreWords(value);
    if Words(value) != [] {
      JoinEnds(Words(value));
      var joined := Join(Words(value));
      assert TrimFront(Built(value)) == Built(value);
      assert TrimBack(joined) == joined;
      assert (joined + "-")[..|joined + "-"| - 1] == joined;
    }
  }

  predicate LetterOrDigit(c: char) { 'a' <= c <= 'z' || 'A' <= c <= 'Z' || '0' <= c <= '9' }

  /** Any other character separates words, and adds nothing to them. */
  lemma {:induction false} WordsAcross(left: string, mark: char, right: string)
    requires !LetterOrDigit(mark)
    ensures Words(left + [mark] + right) == Words(left) + Words(right)
  {
    var both := left + [mark] + right;
    var before := both[..|both| - 1];
    if right == "" {
      assert before == left;
    } else {
      var init := right[..|right| - 1];
      assert before == left + [mark] + init;
      WordsAcross(left, mark, init);
      assert both[|both| - 1] == right[|right| - 1];
      assert EndsInWord(before) == EndsInWord(init);
      if EndsInWord(init) {
        assert (Words(left) + Words(init))[..|Words(before)| - 1] == Words(left) + Words(init)[..|Words(init)| - 1];
      }
    }
  }

  /** A run of letters and digits is one word, and only its capitals change. */
  lemma {:induction false} WordsOfRun(run: string)
    requires run != "" && forall k | 0 <= k < |run| :: LetterOrDigit(run[k])
    ensures |Words(run)| == 1 && |Words(run)[0]| == |run|
    ensures forall k | 0 <= k < |run| :: Words(run)[0][k] == if 'A' <= run[k] <= 'Z' then (run[k] as int + 32) as char else run[k]
  {
    var before, c := run[..|run| - 1], Lower(run[|run| - 1]);
    assert LetterOrDigit(run[|run| - 1]) && IsNameChar(c);
    if before == "" {
      assert Words(run) == [[c]];
    } else {
      WordsOfRun(before);
      var words := Words(before);
      assert LetterOrDigit(before[|before| - 1]) && EndsInWord(before);
      assert Words(run) == words[..0] + [words[0] + [c]];
      assert Words(run)[0] == words[0] + [c];
      forall k | 0 <= k < |before| ensures (words[0] + [c])[k] == if 'A' <= run[k] <= 'Z' then (run[k] as int + 32) as char else run[k] {
        assert before[k] == run[k];
      }
    }
  }

  lemma WordsOfWord(word: string)
    requires IsWord(word)
    ensures Words(word) == [word]
  {
    WordsOfRun(word);
    assert Words(word)[0] == word;
  }

  lemma WordsOfLonger(init: seq<string>, last: string)
    requires Words(Join(init)) == init && Words(last) == [last]
    ensures Words(Join(init + [last])) == init + [last]
  {
    JoinNewWord(init, last);
    if init == [] {
      assert init + [last] == [last];
    } else {
      WordsAcross(Join(init), '-', last);
      assert Join(init) + ['-'] + last == Join(init) + "-" + last;
    }
  }

  lemma AreWordsInit(words: seq<string>)
    requires AreWords(words) && words != []
    ensures AreWords(words[..|words| - 1]) && IsWord(words[|words| - 1])
  {
    var init := words[..|words| - 1];
    forall k | 0 <= k < |init| ensures IsWord(init[k]) {
      assert init[k] == words[k];
    }
  }

  /** Round trip: the words of joined words are those words. */
  lemma {:induction false} WordsOfJoin(words: seq<string>)
    requires AreWords(words)
    ensures Words(Join(words)) == words
  {
    if words != [] {
      var init, last := words[..|words| - 1], words[|words| - 1];
      AreWordsInit(words);
      WordsOfJoin(init);
      WordsOfWord(last);
      WordsOfLonger(init, last);
      assert words == init + [last];
    }
  }

  /** A safe name consists of lower-case letters, digits, and single dashes between them. */
  ghost predicate Shapely(name: string) {
    && (forall k | 0 <= k < |name| :: IsNameChar(name[k]) || name[k] == '-')
    && (forall k | 0 <= k < |name| && name[k] == '-' :: 0 < k < |name| - 1 && name[k - 1] != '-' && name[k + 1] != '-')
  }

  lemma {:induction false} JoinIsShapely(words: seq<string>)
    requires AreWords(words)
    ensures Shapely(Join(words))
  {
    if words != [] {
      var init, last := words[..|words| - 1], words[|words| - 1];
      AreWordsInit(words);
      JoinIsShapely(init);
      assert init + [last] == words;
      JoinNewWord(init, last);
      if init != [] { JoinEnds(init); }
    }
  }

  lemma SafeNameIsShapely(value: string)
    ensures Shapely(SafeName(value))
  {
    SafeNameJoinsWords(value);
    WordsAreWords(value);
    JoinIsShapely(Words(value));
  }

  /** Two values share a log file exactly when they have the same words. */
  lemma SameNameIffSameWords(left: string, right: string)
    ensures SafeName(left) == SafeName(right) <==> Words(left) == Words(right)
  {
    SafeNameJoinsWords(left);
    SafeNameJoinsWords(right);
    WordsAreWords(left);
    WordsAreWords(right);
    WordsOfJoin(Words(left));
    WordsOfJoin(Words(right));
  }

  /** Making a safe name safe changes nothing. */
  lemma SafeNameIdempotent(value: string)
    ensures SafeName(SafeName(value)) == SafeName(value)
  {
    SafeNameJoinsWords(value);
    WordsAreWords(value);
    WordsOfJoin(Words(value));
    SameNameIffSameWords(SafeName(value), value);
  }

  /** The value `WriteLog` is given for a job. */
  function LogKey(workflowID: string, jobID: string): string { workflowID + "-" + jobID }

  /**
   Two jobs, of one workflow or of two, write the same log file exactly when the words of the workflow
   ID followed by those of the job ID are the same.
   */
  lemma JobsShareLogExactly(workflow0: string, job0: string, workflow1: string, job1: string)
    ensures SafeName(LogKey(workflow0, job0)) == SafeName(LogKey(workflow1, job1))
            <==> Words(workflow0) + Words(job0) == Words(workflow1) + Words(job1)
  {
    SameNameIffSameWords(LogKey(workflow0, job0), LogKey(workflow1, job1));
    WordsAcross(workflow0, '-', job0);
    WordsAcross(workflow1, '-', job1);
  }

  /** So distinct jobs can lose a log to each other: within a workflow, and between two. */
  lemma DistinctJobsShareLogs(workflowID: string, left: string, right: string)
    ensures SafeName(LogKey(workflowID, left + "_" + right)) == SafeName(LogKey(workflowID, left + "-" + right))
    ensures SafeName(LogKey(workflowID, left + "-" + right)) == SafeName(LogKey(workflowID + "-" + left, right))
  {
    WordsAcross(left, '_', right);
    WordsAcross(left, '-', right);
    JobsShareLogExactly(workflowID, left + "_" + right, workflowID, left + "-" + right);
    assert LogKey(workflowID, left + "-" + right) == LogKey(workflowID + "-" + left, right);
  }
}
