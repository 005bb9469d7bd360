/**
 Entries fired at the same time (internal/engine/logging.go:71-152). Each job of act logs on its own,
 so `Fire` runs concurrently: it reads the clock, learns what its entry tells of secrets and masks the
 message without the collector's lock, and only then takes the lock and writes. The state machine
 below takes one of these actions at a time, of any number of entries.
 */
module Firing {
  import opened Model
  import opened Mask
  import opened Collector

  /** How far `Fire` has got with an entry; `told` counts what has been learnt from it. */
  datatype Phase = Learning(told: nat) | Masked(message: string) | Written

  datatype State = State(entries: seq<Entry>, phases: seq<Phase>, held: seq<string>, history: seq<Logged>)

  datatype Action =
    | Arrive(entry: Entry)                               // `Fire` is entered; the clock has been read
    | Learn(index: nat, after: seq<string>)              // the next value the entry tells is added to the masker
    | Elsewhere(value: string, after: seq<string>)       // the collector of another workflow adds a value
    | MaskEntry(index: nat)                              // the message is masked
    | WriteEntry(index: nat)                             // the part under the lock

  /** What an entry tells of secrets: first the announcement in its message, then the attached masks. */
  function Told(entry: Entry, k: nat): string
    requires k <= |entry.masks|
  {
    TrimSpace(if k == 0 then Announced(entry.message) else entry.masks[k - 1])
  }

  ghost predicate Enabled(s: State, action: Action) {
    |s.phases| == |s.entries| &&
    match action
    case Arrive(_) => true
    case Learn(e, after) =>
      && e < |s.entries| && s.phases[e].Learning? && s.phases[e].told <= |s.entries[e].masks|
      && LongestFirst(after) && Added(s.held, after, Told(s.entries[e], s.phases[e].told))
    case Elsewhere(value, after) => LongestFirst(after) && Added(s.held, after, TrimSpace(value))
    case MaskEntry(e) => e < |s.entries| && s.phases[e] == Learning(|s.entries[e].masks| + 1) && LongestFirst(s.held)
    case WriteEntry(e) => e < |s.entries| && s.phases[e].Masked?
  }

  function Line(w: Wiring, entry: Entry, message: string): Logged {
    Logged(entry.now, w.JobOf(entry), entry.step, entry.stepResult, message)
  }

  ghost function Apply(w: Wiring, s: State, action: Action): (t: State)
    requires Enabled(s, action)
    ensures |t.phases| == |t.entries|
  {
    match action
    case Arrive(entry) => s.(entries := s.entries + [entry], phases := s.phases + [Learning(0)])
    case Learn(e, after) => s.(phases := s.phases[e := Learning(s.phases[e].told + 1)], held := after)
    case Elsewhere(_, after) => s.(held := after)
    case MaskEntry(e) => s.(phases := s.phases[e := Masked(ReplaceEach(s.entries[e].message, s.held))])
    case WriteEntry(e) => s.(phases := s.phases[e := Written], history := s.history + [Line(w, s.entries[e], s.phases[e].message)])
  }

  /** Before anything is fired, only the secrets the run was given are held. */
  function Begin(given: seq<string>): State { State([], [], given, []) }

  ghost predicate Possible(w: Wiring, given: seq<string>, actions: seq<Action>)
    decreases |actions|, 0
  {
    actions == [] ||
    var before := actions[..|actions| - 1];
    Possible(w, given, before) && Enabled(After(w, given, before), actions[|actions| - 1])
  }

  ghost function After(w: Wiring, given: seq<string>, actions: seq<Action>): State
    requires Possible(w, given, actions)
    decreases |actions|, 1
  {
    if actions == [] then Begin(given)
    else Apply(w, After(w, given, actions[..|actions| - 1]), actions[|actions| - 1])
  }

  // ---- any moment of a run ----

  lemma {:induction false} PossiblePrefix(w: Wiring, given: seq<string>, actions: seq<Action>, n: nat)
    requires Possible(w, given, actions) && n <= |actions|
    ensures Possible(w, given, actions[..n])
    decreases |actions|
  {
    if n < |actions| {
      var before := actions[..|actions| - 1];
      PossiblePrefix(w, given, before, n);
      assert before[..n] == actions[..n];
    } else {
      assert actions[..n] == actions;
    }
  }

  /** The state before action `n`. */
  ghost function At(w: Wiring, given: seq<string>, actions: seq<Action>, n: nat): State
    requires Possible(w, given, actions) && n <= |actions|
  {
    PossiblePrefix(w, given, actions, n);
    After(w, given, actions[..n])
  }

  lemma Next(w: Wiring, given: seq<string>, actions: seq<Action>, n: nat)
    requires Possible(w, given, actions) && n < |actions|
    ensures Enabled(At(w, given, actions, n), actions[n])
    ensures At(w, given, actions, n + 1) == Apply(w, At(w, given, actions, n), actions[n])
  {
    PossiblePrefix(w, given, actions, n + 1);
    assert actions[..n + 1][..n] == actions[..n];
  }

  /** A secret once held stays held. */
  lemma AddedKeeps(before: seq<string>, after: seq<string>, value: string, secret: string)
    requires Added(before, after, value) && secret in before
    ensures secret in after
  {
    AddedMember(before, after, value, secret);
  }

  lemma {:induction false} HeldStays(w: Wiring, given: seq<string>, actions: seq<Action>, m: nat, n: nat, secret: string)
    requires Possible(w, given, actions) && m <= n <= |actions| && secret in At(w, given, actions, m).held
    ensures secret in At(w, given, actions, n).held
    decreases n - m
  {
    if m < n {
      var s := At(w, given, actions, m);
      Next(w, given, actions, m);
      match actions[m] {
        case Learn(e, after) => AddedKeeps(s.held, after, Told(s.entries[e], s.phases[e].told), secret);
        case Elsewhere(value, after) => AddedKeeps(s.held, after, TrimSpace(value), secret);
        case _ =>
      }
      HeldStays(w, given, actions, m + 1, n, secret);
    }
  }

  /** Action `j` adds the secret to those held. */
  ghost predicate Learns(w: Wiring, given: seq<string>, actions: seq<Action>, j: nat, secret: string)
    requires Possible(w, given, actions) && j < |actions|
  {
    secret !in At(w, given, actions, j).held && secret in At(w, given, actions, j + 1).held
  }

  ghost predicate LearntBetween(w: Wiring, given: seq<string>, actions: seq<Action>, m: nat, n: nat, secret: string)
    requires Possible(w, given, actions) && n <= |actions|
  {
    exists j: nat :: m <= j < n && Learns(w, given, actions, j, secret)
  }

  /** A secret held at `n` was learnt since `m` exactly if it was not held at `m`. */
  lemma {:induction false} LearntBetweenExactly(w: Wiring, given: seq<string>, actions: seq<Action>, m: nat, n: nat, secret: string)
    requires Possible(w, given, actions) && m <= n <= |actions| && secret in At(w, given, actions, n).held
    ensures LearntBetween(w, given, actions, m, n, secret) <==> secret !in At(w, given, actions, m).held
    decreases n - m
  {
    if secret in At(w, given, actions, m).held {
      forall j: nat | m <= j < n ensures !Learns(w, given, actions, j, secret) {
        HeldStays(w, given, actions, m, j, secret);
      }
    } else if secret in At(w, given, actions, m + 1).held {
      assert Learns(w, given, actions, m, secret);
    } else {
      LearntBetweenExactly(w, given, actions, m + 1, n, secret);
      var j: nat :| m + 1 <= j < n && Learns(w, given, actions, j, secret);
    }
  }

  /** The masker's list is always in order, so nothing but the entry's own progress decides when it can be masked. */
  lemma {:induction false} HeldInOrder(w: Wiring, given: seq<string>, actions: seq<Action>)
    requires Possible(w, given, actions) && LongestFirst(given)
    ensures LongestFirst(After(w, given, actions).held)
    decreases |actions|
  {
    if actions != [] { HeldInOrder(w, given, actions[..|actions| - 1]); }
  }

  // ---- an entry between its two actions ----

  /** The entry has this content, and its message has been masked to this one. */
  ghost predicate Carries(s: State, e: nat, entry: Entry, message: string) {
    && e < |s.entries| && |s.phases| == |s.entries| && s.entries[e] == entry
    && (s.phases[e] == Masked(message) || s.phases[e] == Written)
  }

  lemma {:induction false} Carried(w: Wiring, given: seq<string>, actions: seq<Action>, m: nat, n: nat, e: nat, entry: Entry, message: string)
    requires Possible(w, given, actions) && m <= n <= |actions| && Carries(At(w, given, actions, m), e, entry, message)
    ensures Carries(At(w, given, actions, n), e, entry, message)
    decreases n - m
  {
    if m < n {
      Next(w, given, actions, m);
      Carried(w, given, actions, m + 1, n, e, entry, message);
    }
  }

  /** The line that action `n` writes is the message as it was masked at `m`, with what was held then. */
  lemma WritesWhatWasMasked(w: Wiring, given: seq<string>, actions: seq<Action>, m: nat, n: nat, e: nat)
    requires Possible(w, given, actions) && m < n < |actions| && actions[m] == MaskEntry(e) && actions[n] == WriteEntry(e)
    ensures var s := At(w, given, actions, m);
            && e < |s.entries| && LongestFirst(s.held)
            && At(w, given, actions, n + 1).history ==
               At(w, given, actions, n).history + [Line(w, s.entries[e], ReplaceEach(s.entries[e].message, s.held))]
  {
    var s := At(w, given, actions, m);
    Next(w, given, actions, m);
    Carried(w, given, actions, m + 1, n, e, s.entries[e], ReplaceEach(s.entries[e].message, s.held));
    Next(w, given, actions, n);
  }

  /** Whatever is written was masked before. */
  lemma {:induction false} MaskedBefore(w: Wiring, given: seq<string>, actions: seq<Action>, n: nat, e: nat) returns (m: nat)
    requires Possible(w, given, actions) && n <= |actions|
    requires e < |At(w, given, actions, n).entries| == |At(w, given, actions, n).phases| && At(w, given, actions, n).phases[e].Masked?
    ensures m < n && actions[m] == MaskEntry(e)
    decreases n
  {
    Next(w, given, actions, n - 1);
    if actions[n - 1] == MaskEntry(e) {
      m := n - 1;
    } else {
      m := MaskedBefore(w, given, actions, n - 1, e);
    }
  }

  // ---- what a written line shows ----

  /** No line shows a solid secret that was held when its message was masked. */
  lemma CleanOfWhatWasHeld(w: Wiring, given: seq<string>, actions: seq<Action>, n: nat, e: nat) returns (m: nat)
    requires Possible(w, given, actions) && n < |actions| && actions[n] == WriteEntry(e)
    ensures m < n && actions[m] == MaskEntry(e)
    ensures var before, after := At(w, given, actions, n).history, At(w, given, actions, n + 1).history;
            |after| == |before| + 1 && after[..|before|] == before && Clean(after[|before|].message, At(w, given, actions, m).held)
  {
    Next(w, given, actions, n);
    m := MaskedBefore(w, given, actions, n, e);
    WritesWhatWasMasked(w, given, actions, m, n, e);
    var s := At(w, given, actions, m);
    MaskedIsClean(s.entries[e].message, s.held);
  }

  /** What has been learnt from an entry that is still to be masked is held. */
  ghost predicate ToldIsHeld(s: State) {
    |s.phases| == |s.entries| &&
    forall e, k: nat | 0 <= e < |s.entries| && s.phases[e].Learning? && k < s.phases[e].told && k <= |s.entries[e].masks| ::
      Told(s.entries[e], k) == "" || Told(s.entries[e], k) in s.held
  }

  lemma LearnKeepsTold(w: Wiring, s: State, i: nat, after: seq<string>)
    requires Enabled(s, Learn(i, after)) && ToldIsHeld(s)
    ensures ToldIsHeld(Apply(w, s, Learn(i, after)))
  {
    var t, told := Apply(w, s, Learn(i, after)), Told(s.entries[i], s.phases[i].told);
    forall e, k: nat | 0 <= e < |t.entries| && t.phases[e].Learning? && k < t.phases[e].told && k <= |t.entries[e].masks|
      ensures Told(t.entries[e], k) == "" || Told(t.entries[e], k) in t.held
    {
      AddedMember(s.held, after, told, Told(s.entries[e], k));
      assert s.phases[e].Learning? && (k < s.phases[e].told || Told(s.entries[e], k) == told);
    }
  }

  lemma ElsewhereKeepsTold(w: Wiring, s: State, value: string, after: seq<string>)
    requires Enabled(s, Elsewhere(value, after)) && ToldIsHeld(s)
    ensures ToldIsHeld(Apply(w, s, Elsewhere(value, after)))
  {
    forall x | x in s.held ensures x in after { AddedMember(s.held, after, TrimSpace(value), x); }
  }

  lemma ActionKeepsTold(w: Wiring, s: State, action: Action)
    requires Enabled(s, action) && ToldIsHeld(s)
    ensures ToldIsHeld(Apply(w, s, action))
  {
    match action {
      case Learn(i, after) => LearnKeepsTold(w, s, i, after);
      case Elsewhere(value, after) => ElsewhereKeepsTold(w, s, value, after);
      case _ =>
    }
  }

  lemma {:induction false} ToldStaysHeld(w: Wiring, given: seq<string>, actions: seq<Action>)
    requires Possible(w, given, actions)
    ensures ToldIsHeld(After(w, given, actions))
    decreases |actions|
  {
    if actions != [] {
      ToldStaysHeld(w, given, actions[..|actions| - 1]);
      ActionKeepsTold(w, After(w, given, actions[..|actions| - 1]), actions[|actions| - 1]);
    }
  }

  /**
   No entry shows what it tells itself, however it is overtaken: neither a value attached to it nor the one
   that follows the first marker in its message.
   */
  lemma OwnSecretsNeverShown(w: Wiring, given: seq<string>, actions: seq<Action>, m: nat, n: nat, e: nat, secret: string)
    requires Possible(w, given, actions) && m < n < |actions| && actions[m] == MaskEntry(e) && actions[n] == WriteEntry(e)
    requires var entries := At(w, given, actions, m).entries;
             e < |entries| && Solid(secret) &&
             ((exists k :: 0 <= k < |entries[e].masks| && secret == TrimSpace(entries[e].masks[k])) || secret == TrimSpace(Announced(entries[e].message)))
    ensures var after := At(w, given, actions, n + 1).history; after != [] && !Occurs(after[|after| - 1].message, secret)
  {
    var s := At(w, given, actions, m);
    Next(w, given, actions, m);
    PossiblePrefix(w, given, actions, m);
    ToldStaysHeld(w, given, actions[..m]);
    var entry := s.entries[e];
    if k :| 0 <= k < |entry.masks| && secret == TrimSpace(entry.masks[k]) {
      assert Told(entry, k + 1) == secret;
    } else {
      assert Told(entry, 0) == secret;
    }
    WritesWhatWasMasked(w, given, actions, m, n, e);
    MaskingComplete(s.held, entry.message, secret);
  }

  /**
   A line shows a solid secret that is held when it is written exactly if the secret was learnt between
   the masking and the writing of its entry, and occurs in the message as it was masked by then.
   */
  lemma ShowsHeldExactly(w: Wiring, given: seq<string>, actions: seq<Action>, m: nat, n: nat, e: nat, secret: string)
    requires Possible(w, given, actions) && m < n < |actions| && actions[m] == MaskEntry(e) && actions[n] == WriteEntry(e)
    requires Solid(secret) && secret in At(w, given, actions, n).held
    ensures var s, after := At(w, given, actions, m), At(w, given, actions, n + 1).history;
            && e < |s.entries| && LongestFirst(s.held) && after != []
            && (Occurs(after[|after| - 1].message, secret) <==>
                  && LearntBetween(w, given, actions, m, n, secret)
                  && Occurs(ReplaceEach(s.entries[e].message, s.held), secret))
  {
    var s := At(w, given, actions, m);
    WritesWhatWasMasked(w, given, actions, m, n, e);
    LearntBetweenExactly(w, given, actions, m, n, secret);
    MaskedIsClean(s.entries[e].message, s.held);
  }

  // ---- an overtaken entry ----

  lemma Take(w: Wiring, given: seq<string>, actions: seq<Action>, s: State, action: Action, t: State)
    requires Possible(w, given, actions) && After(w, given, actions) == s
    requires Enabled(s, action) && Apply(w, s, action) == t
    ensures Possible(w, given, actions + [action]) && After(w, given, actions + [action]) == t
  {
    assert (actions + [action])[..|actions|] == actions;
  }

  /** Two entries of one job; the second tells the secret that the first one's message shows. */
  function Early(job: string, secret: string): Entry { Entry(1, job, "", "", "", false, secret, []) }
  function Late(job: string, secret: string): Entry { Entry(2, job, "", "", "", false, "", [secret]) }

  /** The second entry arrives, is masked and is written while the first one waits for the lock. */
  function Overtaking(job: string, secret: string): seq<Action> {
    [Arrive(Early(job, secret)), Learn(0, []), MaskEntry(0)] +
    [Arrive(Late(job, secret)), Learn(1, []), Learn(1, [secret])] +
    [MaskEntry(1), WriteEntry(1), WriteEntry(0)]
  }

  lemma FirstIsMasked(w: Wiring, job: string, secret: string)
    requires Announced(secret) == ""
    ensures var actions := [Arrive(Early(job, secret)), Learn(0, []), MaskEntry(0)];
            Possible(w, [], actions) && After(w, [], actions) == State([Early(job, secret)], [Masked(secret)], [], [])
  {
    var s0 := State([Early(job, secret)], [Learning(0)], [], []);
    var s1 := s0.(phases := [Learning(1)]);
    assert TrimSpace("") == "";
    Take(w, [], [], Begin([]), Arrive(Early(job, secret)), s0);
    Take(w, [], [] + [Arrive(Early(job, secret))], s0, Learn(0, []), s1);
    Take(w, [], [] + [Arrive(Early(job, secret))] + [Learn(0, [])], s1, MaskEntry(0), s1.(phases := [Masked(secret)]));
    assert [] + [Arrive(Early(job, secret))] + [Learn(0, [])] + [MaskEntry(0)] == [Arrive(Early(job, secret)), Learn(0, []), MaskEntry(0)];
  }

  lemma SecondLearns(w: Wiring, actions: seq<Action>, job: string, secret: string)
    requires TrimSpace(secret) == secret && secret != ""
    requires Possible(w, [], actions) && After(w, [], actions) == State([Early(job, secret)], [Masked(secret)], [], [])
    ensures var longer := actions + [Arrive(Late(job, secret)), Learn(1, []), Learn(1, [secret])];
            && Possible(w, [], longer)
            && After(w, [], longer) == State([Early(job, secret), Late(job, secret)], [Masked(secret), Learning(2)], [secret], [])
  {
    var late := Late(job, secret);
    var s0 := State([Early(job, secret), late], [Masked(secret), Learning(0)], [], []);
    var s1 := s0.(phases := [Masked(secret), Learning(1)]);
    var s2 := s0.(phases := [Masked(secret), Learning(2)], held := [secret]);
    assert TrimSpace("") == "" && Announced("") == "";
    Take(w, [], actions, After(w, [], actions), Arrive(late), s0);
    Take(w, [], actions + [Arrive(late)], s0, Learn(1, []), s1);
    assert multiset([secret]) == multiset([]) + multiset{secret};
    Take(w, [], actions + [Arrive(late)] + [Learn(1, [])], s1, Learn(1, [secret]), s2);
    assert actions + [Arrive(late)] + [Learn(1, [])] + [Learn(1, [secret])] == actions + [Arrive(late), Learn(1, []), Learn(1, [secret])];
  }

  lemma SecondIsWrittenFirst(w: Wiring, actions: seq<Action>, job: string, secret: string)
    requires secret != "" && Possible(w, [], actions)
    requires After(w, [], actions) == State([Early(job, secret), Late(job, secret)], [Masked(secret), Learning(2)], [secret], [])
    ensures var longer := actions + [MaskEntry(1), WriteEntry(1), WriteEntry(0)];
            && Possible(w, [], longer)
            && After(w, [], longer).held == [secret]
            && After(w, [], longer).history == [Line(w, Late(job, secret), ""), Line(w, Early(job, secret), secret)]
  {
    var s0 := After(w, [], actions);
    var s1 := s0.(phases := [Masked(secret), Masked("")]);
    var s2 := s0.(phases := [Masked(secret), Written], history := [Line(w, Late(job, secret), "")]);
    var s3 := s2.(phases := [Written, Written], history := [Line(w, Late(job, secret), ""), Line(w, Early(job, secret), secret)]);
    OneValue("", secret);
    Take(w, [], actions, s0, MaskEntry(1), s1);
    Take(w, [], actions + [MaskEntry(1)], s1, WriteEntry(1), s2);
    Take(w, [], actions + [MaskEntry(1)] + [WriteEntry(1)], s2, WriteEntry(0), s3);
    assert actions + [MaskEntry(1)] + [WriteEntry(1)] + [WriteEntry(0)] == actions + [MaskEntry(1), WriteEntry(1), WriteEntry(0)];
  }

  lemma EndsBeforeItStarts(w: Wiring, job: string, secret: string)
    ensures Times([Line(w, Late(job, secret), ""), Line(w, Early(job, secret), secret)], w.JobOf(Early(job, secret)), 2, 1)
  {
    var history := [Line(w, Late(job, secret), ""), Line(w, Early(job, secret), secret)];
    assert w.JobOf(Late(job, secret)) == w.JobOf(Early(job, secret));
    assert IsFirst(history, w.JobOf(Early(job, secret)), None, 0) && IsLast(history, w.JobOf(Early(job, secret)), 1);
  }

  /**
   An entry can be overtaken. For any wiring, any job and any solid secret there is a run in which a line
   shows the secret although it is held when the line is written, and the job ends before it starts.
   */
  lemma OvertakenEntry(w: Wiring, job: string, secret: string)
    requires Solid(secret) && TrimSpace(secret) == secret && Announced(secret) == ""
    ensures Possible(w, [], Overtaking(job, secret))
    ensures var s := After(w, [], Overtaking(job, secret));
            && secret in s.held && |s.history| == 2 && Occurs(s.history[1].message, secret)
            && Times(s.history, w.JobOf(Early(job, secret)), 2, 1)
  {
    var first := [Arrive(Early(job, secret)), Learn(0, []), MaskEntry(0)];
    var second := first + [Arrive(Late(job, secret)), Learn(1, []), Learn(1, [secret])];
    FirstIsMasked(w, job, secret);
    SecondLearns(w, first, job, secret);
    SecondIsWrittenFirst(w, second, job, secret);
    assert OccursAt(secret, secret, 0);
    EndsBeforeItStarts(w, job, secret);
  }
}
