/**
 Publishing a run (internal/store/store.go:42-64, 99-138, 172-198) as file system steps. Several
 processes work on the same store, each on a run of its own; a process may die, or give up with an
 error, between any two steps. A rename is atomic; a write may leave any part of its data behind.
 */
module Publish {
  import opened Model
  import opened Mask

  datatype Path = ResultJSON(id: string) | ResultGR(id: string) | Latest | Temp(run: nat, target: nat)

  /** A run: its ID and the two documents it publishes. */
  datatype Run = Run(id: string, json: string, compact: string)

  /**
   `done[k]` counts the steps run `k` has taken: 1 for `Start`, then for each of the three files create,
   write, write on and rename, and finally the line in the index.
   */
  datatype World = World(dirs: set<string>, files: map<Path, string>, index: seq<string>, done: seq<nat>, stopped: set<nat>)

  /** IDs are distinct and contain no white space (they are time stamps with a hexadecimal suffix). */
  ghost predicate ValidRuns(runs: seq<Run>) {
    && (forall k, m | 0 <= k < m < |runs| :: runs[k].id != runs[m].id)
    && (forall k | 0 <= k < |runs| :: runs[k].id != "" && forall c | c in runs[k].id :: !IsSpace(c))
  }

  /** The files `Complete` writes, in order. */
  function Target(run: Run, target: nat): Path
    requires target < 3
  {
    if target == 0 then ResultJSON(run.id) else if target == 1 then ResultGR(run.id) else Latest
  }

  function Data(run: Run, target: nat): string
    requires target < 3
  {
    if target == 0 then run.json else if target == 1 then run.compact else run.id + "\n"
  }

  /** One step of run `k`: the next file system operation, or a stop, which may leave the temporary file. */
  datatype Step = Next(run: nat, part: nat) | Stop(run: nat, cleanup: bool)

  predicate Enabled(runs: seq<Run>, w: World, step: Step) {
    |w.done| == |runs| && step.run < |runs| && step.run !in w.stopped && w.done[step.run] < 14
  }

  /** The operation after `done` steps: 0 make the directories, 1-12 the three atomic writes, 13 the index. */
  function Operate(w: World, run: Run, k: nat, done: nat, part: nat): World
    requires done < 14
  {
    if done == 0 then w.(dirs := w.dirs + {run.id})
    else if done == 13 then w.(index := w.index + [run.id])
    else
      var target, phase := (done - 1) / 4, (done - 1) % 4;
      var data := Data(run, target);
      if phase == 0 then w.(files := w.files[Temp(k, target) := ""])
      else if phase == 1 then w.(files := w.files[Temp(k, target) := if part <= |data| then data[..part] else data])
      else if phase == 2 then w.(files := w.files[Temp(k, target) := data])
      else Renamed(w, Temp(k, target), Target(run, target))
  }

  /** The operation after `4 * target + 1 + phase` steps. */
  lemma PhaseOf(target: nat, phase: nat)
    requires phase < 4
    ensures (4 * target + phase) / 4 == target && (4 * target + phase) % 4 == phase
  {
  }

  function Renamed(w: World, from: Path, to: Path): World {
    if from in w.files then w.(files := w.files[to := w.files[from]] - {from}) else w
  }

  function Apply(runs: seq<Run>, w: World, step: Step): World
    requires Enabled(runs, w, step)
  {
    match step
    case Next(k, part) => Operate(w, runs[k], k, w.done[k], part).(done := w.done[k := w.done[k] + 1])
    case Stop(k, cleanup) =>
      w.(stopped := w.stopped + {k},
         files := if cleanup then w.files - {Temp(k, 0), Temp(k, 1), Temp(k, 2)} else w.files)
  }

  function Empty(runs: seq<Run>): World {
    World({}, map[], [], seq(|runs|, _ => 0), {})
  }

  ghost predicate Possible(runs: seq<Run>, steps: seq<Step>)
    decreases |steps|, 0
  {
    steps == [] ||
    var before := steps[..|steps| - 1];
    Possible(runs, before) && Enabled(runs, After(runs, before), steps[|steps| - 1])
  }

  ghost function After(runs: seq<Run>, steps: seq<Step>): World
    requires Possible(runs, steps)
    decreases |steps|, 1
  {
    if steps == [] then Empty(runs)
    else Apply(runs, After(runs, steps[..|steps| - 1]), steps[|steps| - 1])
  }

  // ---- the invariant ----

  /** Run `k` has renamed its file number `target` into place. */
  predicate Placed(w: World, k: nat, target: nat)
    requires k < |w.done|
  {
    w.done[k] > 4 + 4 * target
  }

  /** A published document is there from its rename on, and whole whenever it is there. */
  ghost predicate DocumentInv(runs: seq<Run>, w: World, k: nat, target: nat)
    requires k < |runs| == |w.done| && target < 2
  {
    && (Placed(w, k, target) ==> Target(runs[k], target) in w.files)
    && (Target(runs[k], target) in w.files ==> w.files[Target(runs[k], target)] == Data(runs[k], target))
  }

  /** A temporary file about to be renamed is complete. */
  ghost predicate TempInv(runs: seq<Run>, w: World, k: nat, target: nat)
    requires k < |runs| == |w.done| && target < 3
  {
    w.done[k] == 4 + 4 * target && k !in w.stopped ==>
      Temp(k, target) in w.files && w.files[Temp(k, target)] == Data(runs[k], target)
  }

  /** Line `m` of the index names a run that has taken all its steps. */
  ghost predicate Indexed(runs: seq<Run>, w: World, m: nat)
    requires |w.done| == |runs| && m < |w.index|
  {
    exists k: nat | k < |runs| && w.done[k] > 13 :: w.index[m] == runs[k].id
  }

  ghost predicate WorldInv(runs: seq<Run>, w: World) {
    && ValidRuns(runs) && |w.done| == |runs|
    && (forall k: nat, target: nat | k < |runs| && target < 2 :: DocumentInv(runs, w, k, target))
    && (forall k: nat, target: nat | k < |runs| && target < 3 :: TempInv(runs, w, k, target))
    && (forall k: nat | k < |runs| && w.done[k] > 0 :: runs[k].id in w.dirs)
    && (Latest in w.files ==> exists k: nat | k < |runs| && Placed(w, k, 2) :: w.files[Latest] == runs[k].id + "\n")
    && (forall m: nat | m < |w.index| :: Indexed(runs, w, m))
  }

  /** Steps that change no published file, no directory and no index line except by adding to them. */
  ghost predicate OnlyTemps(w: World, u: World, k: nat) {
    && (forall p: Path | !p.Temp? :: p in u.files <==> p in w.files)
    && (forall p: Path | !p.Temp? && p in w.files :: u.files[p] == w.files[p])
    && (forall m: nat, t: nat | m != k :: Temp(m, t) in w.files ==> Temp(m, t) in u.files && u.files[Temp(m, t)] == w.files[Temp(m, t)])
  }

  lemma StopInv(runs: seq<Run>, w: World, k: nat, cleanup: bool)
    requires WorldInv(runs, w) && Enabled(runs, w, Stop(k, cleanup))
    ensures WorldInv(runs, Apply(runs, w, Stop(k, cleanup)))
  {
    var u := Apply(runs, w, Stop(k, cleanup));
    assert u.done == w.done && u.dirs == w.dirs && u.index == w.index;
    forall m: nat, target: nat | m < |runs| && target < 2 ensures DocumentInv(runs, u, m, target) {
      assert DocumentInv(runs, w, m, target);
    }
    forall m: nat, target: nat | m < |runs| && target < 3 ensures TempInv(runs, u, m, target) {
      assert TempInv(runs, w, m, target);
    }
    if Latest in u.files {
      var m: nat :| m < |runs| && Placed(w, m, 2) && w.files[Latest] == runs[m].id + "\n";
      assert Placed(u, m, 2) && u.files[Latest] == runs[m].id + "\n";
    }
    forall m: nat | m < |u.index| ensures Indexed(runs, u, m) {
      assert Indexed(runs, w, m);
    }
  }

  /** A step that only touches the temporary files of run `k`, besides directories and the index. */
  lemma TempStepInv(runs: seq<Run>, w: World, u: World, k: nat)
    requires WorldInv(runs, w) && k < |runs| && k !in w.stopped
    requires u.done == w.done[k := w.done[k] + 1] && u.stopped == w.stopped
    requires OnlyTemps(w, u, k) && w.dirs <= u.dirs && runs[k].id in u.dirs
    requires w.done[k] == 0 || w.done[k] == 13 || (w.done[k] < 13 && (w.done[k] - 1) % 4 != 3)
    requires forall target: nat | target < 3 && w.done[k] == 3 + 4 * target ::
               Temp(k, target) in u.files && u.files[Temp(k, target)] == Data(runs[k], target)
    requires u.index == (if w.done[k] == 13 then w.index + [runs[k].id] else w.index)
    ensures WorldInv(runs, u)
  {
    forall m: nat, target: nat | m < |runs| && target < 2 ensures DocumentInv(runs, u, m, target) {
      assert DocumentInv(runs, w, m, target);
    }
    forall m: nat, target: nat | m < |runs| && target < 3 ensures TempInv(runs, u, m, target) {
      assert TempInv(runs, w, m, target);
    }
    if Latest in u.files {
      var m: nat :| m < |runs| && Placed(w, m, 2) && w.files[Latest] == runs[m].id + "\n";
      assert Placed(u, m, 2);
    }
    forall m: nat | m < |u.index| ensures Indexed(runs, u, m) {
      if m < |w.index| {
        assert Indexed(runs, w, m);
        var j: nat :| j < |runs| && w.done[j] > 13 && w.index[m] == runs[j].id;
        assert u.done[j] > 13;
      } else {
        assert u.done[k] > 13;
      }
    }
  }

  lemma RenameInv(runs: seq<Run>, w: World, u: World, k: nat, target: nat)
    requires WorldInv(runs, w) && k < |runs| && k !in w.stopped && target < 3 && w.done[k] == 4 + 4 * target
    requires u == Renamed(w, Temp(k, target), Target(runs[k], target)).(done := w.done[k := w.done[k] + 1])
    ensures WorldInv(runs, u)
  {
    assert TempInv(runs, w, k, target);
    forall m: nat, t: nat | m < |runs| && t < 2 ensures DocumentInv(runs, u, m, t) {
      assert DocumentInv(runs, w, m, t);
      assert Target(runs[m], t) == Target(runs[k], target) ==> m == k && t == target;
    }
    forall m: nat, t: nat | m < |runs| && t < 3 ensures TempInv(runs, u, m, t) {
      assert TempInv(runs, w, m, t);
    }
    if Latest in u.files {
      if target == 2 {
        assert Placed(u, k, 2);
      } else {
        var m: nat :| m < |runs| && Placed(w, m, 2) && w.files[Latest] == runs[m].id + "\n";
        assert Placed(u, m, 2);
      }
    }
    forall m: nat | m < |u.index| ensures Indexed(runs, u, m) {
      assert Indexed(runs, w, m);
      var j: nat :| j < |runs| && w.done[j] > 13 && w.index[m] == runs[j].id;
      assert u.done[j] > 13;
    }
  }

  lemma NextInv(runs: seq<Run>, w: World, k: nat, part: nat)
    requires WorldInv(runs, w) && Enabled(runs, w, Next(k, part))
    ensures WorldInv(runs, Apply(runs, w, Next(k, part)))
  {
    var u, done := Apply(runs, w, Next(k, part)), w.done[k];
    if 0 < done < 13 && (done - 1) % 4 == 3 {
      assert done == 4 + 4 * ((done - 1) / 4);
      RenameInv(runs, w, u, k, (done - 1) / 4);
    } else {
      TempStepInv(runs, w, u, k);
    }
  }

  lemma {:induction false} AfterInv(runs: seq<Run>, steps: seq<Step>)
    requires ValidRuns(runs) && Possible(runs, steps)
    ensures WorldInv(runs, After(runs, steps))
    decreases |steps|
  {
    if steps != [] {
      AfterInv(runs, steps[..|steps| - 1]);
      match steps[|steps| - 1]
      case Next(k, part) => NextInv(runs, After(runs, steps[..|steps| - 1]), k, part);
      case Stop(k, cleanup) => StopInv(runs, After(runs, steps[..|steps| - 1]), k, cleanup);
    }
  }

  // ---- what a reader sees ----

  /** Both documents of the run are present and whole, and so is its directory. */
  ghost predicate Whole(w: World, run: Run) {
    && run.id in w.dirs
    && ResultJSON(run.id) in w.files && w.files[ResultJSON(run.id)] == run.json
    && ResultGR(run.id) in w.files && w.files[ResultGR(run.id)] == run.compact
  }

  /** `Resolve`: the run directory a reference names. */
  function Resolve(w: World, reference: string): Option<string> {
    if reference == "" || reference == "latest"
    then
      if Latest !in w.files then None
      else if TrimSpace(w.files[Latest]) in w.dirs then Some(TrimSpace(w.files[Latest])) else None
    else if reference in w.dirs then Some(reference) else None
  }

  lemma {:induction false} TrimLine(id: string)
    requires id != "" && forall c | c in id :: !IsSpace(c)
    ensures TrimSpace(id + "\n") == id
  {
    var line := id + "\n";
    assert line[0] in id;
    assert TrimLeft(line) == line;
    assert line[..|line| - 1] == id && id[|id| - 1] in id;
    assert TrimRight(id) == id;
  }

  lemma PlacedIsWhole(runs: seq<Run>, w: World, k: nat)
    requires WorldInv(runs, w) && k < |runs| && Placed(w, k, 2)
    ensures Whole(w, runs[k])
  {
    assert DocumentInv(runs, w, k, 0) && DocumentInv(runs, w, k, 1);
    assert Target(runs[k], 0) == ResultJSON(runs[k].id) && Target(runs[k], 1) == ResultGR(runs[k].id);
  }

  /** `id` is the ID of a run whose documents are present and whole. */
  ghost predicate NamesWhole(runs: seq<Run>, w: World, id: string) {
    exists k: nat :: k < |runs| && runs[k].id == id && Whole(w, runs[k])
  }

  lemma LatestIsWhole(runs: seq<Run>, w: World)
    requires WorldInv(runs, w) && Latest in w.files
    ensures Resolve(w, "latest").Some? && NamesWhole(runs, w, Resolve(w, "latest").value)
  {
    var k: nat :| k < |runs| && Placed(w, k, 2) && w.files[Latest] == runs[k].id + "\n";
    PlacedIsWhole(runs, w, k);
    TrimLine(runs[k].id);
  }

  lemma LineIsWhole(runs: seq<Run>, w: World, m: nat)
    requires WorldInv(runs, w) && m < |w.index|
    ensures NamesWhole(runs, w, w.index[m])
  {
    assert Indexed(runs, w, m);
    var k: nat :| k < |runs| && w.done[k] > 13 && w.index[m] == runs[k].id;
    PlacedIsWhole(runs, w, k);
  }

  /**
   Crash-safe publication: at any moment of any interleaving, whatever processes have died, `latest`
   either does not exist or resolves to a run whose documents are present and whole, and so does
   every line of the index.
   */
  lemma PublishedRunsAreWhole(runs: seq<Run>, steps: seq<Step>)
    requires ValidRuns(runs) && Possible(runs, steps)
    ensures var w := After(runs, steps);
            && (Latest in w.files ==> Resolve(w, "latest").Some? && NamesWhole(runs, w, Resolve(w, "latest").value))
            && (forall m: nat | m < |w.index| :: NamesWhole(runs, w, w.index[m]))
  {
    AfterInv(runs, steps);
    var w := After(runs, steps);
    if Latest in w.files { LatestIsWhole(runs, w); }
    forall m: nat | m < |w.index| ensures NamesWhole(runs, w, w.index[m]) {
      LineIsWhole(runs, w, m);
    }
  }

  /** No reader ever sees part of a document, published or not. */
  lemma DocumentsAreNeverPartial(runs: seq<Run>, steps: seq<Step>, k: nat)
    requires ValidRuns(runs) && Possible(runs, steps) && k < |runs|
    ensures var w := After(runs, steps);
            && (ResultJSON(runs[k].id) in w.files ==> w.files[ResultJSON(runs[k].id)] == runs[k].json)
            && (ResultGR(runs[k].id) in w.files ==> w.files[ResultGR(runs[k].id)] == runs[k].compact)
  {
    AfterInv(runs, steps);
    assert DocumentInv(runs, After(runs, steps), k, 0) && DocumentInv(runs, After(runs, steps), k, 1);
    assert Target(runs[k], 0) == ResultJSON(runs[k].id) && Target(runs[k], 1) == ResultGR(runs[k].id);
  }

  /** A reference names the run of that ID, and none or `latest` the run that the file of that name does. */
  lemma ResolveMeans(w: World, reference: string, id: string)
    ensures Resolve(w, reference) == Some(id) <==>
            id in w.dirs && if reference in {"", "latest"} then Latest in w.files && TrimSpace(w.files[Latest]) == id else reference == id
  {
  }

  // ---- what a completed run leaves ----

  /** A run that has renamed its last file has left a `latest`, and one that has taken all its steps is in the index. */
  ghost predicate LeftBehind(runs: seq<Run>, w: World, k: nat)
    requires k < |runs| == |w.done|
  {
    (w.done[k] >= 13 ==> Latest in w.files) && (w.done[k] >= 14 ==> runs[k].id in w.index)
  }

  lemma StepLeaves(runs: seq<Run>, w: World, step: Step, k: nat)
    requires WorldInv(runs, w) && Enabled(runs, w, step) && k < |runs| && LeftBehind(runs, w, k)
    ensures LeftBehind(runs, Apply(runs, w, step), k)
  {
    var u := Apply(runs, w, step);
    if step.Next? && step.run == k && w.done[k] == 12 {
      assert TempInv(runs, w, k, 2);
    }
    assert w.index <= u.index;
    assert Latest in w.files ==> Latest in u.files;
  }

  lemma {:induction false} AllLeft(runs: seq<Run>, steps: seq<Step>, k: nat)
    requires ValidRuns(runs) && Possible(runs, steps) && k < |runs|
    ensures |After(runs, steps).done| == |runs| && LeftBehind(runs, After(runs, steps), k)
    decreases |steps|
  {
    AfterInv(runs, steps);
    if steps != [] {
      var before := steps[..|steps| - 1];
      AfterInv(runs, before);
      AllLeft(runs, before, k);
      StepLeaves(runs, After(runs, before), steps[|steps| - 1], k);
    }
  }

  /** Publishing is not in vain: a run that has completed is whole, is in the index, and some run is the latest. */
  lemma CompletedIsPublished(runs: seq<Run>, steps: seq<Step>, k: nat)
    requires ValidRuns(runs) && Possible(runs, steps) && k < |runs|
    ensures var w := After(runs, steps);
            && |w.done| == |runs|
            && (w.done[k] == 14 ==> Whole(w, runs[k]) && Resolve(w, runs[k].id).Some? && runs[k].id in w.index && Resolve(w, "latest").Some?)
  {
    AfterInv(runs, steps);
    AllLeft(runs, steps, k);
    if After(runs, steps).done[k] == 14 {
      PlacedIsWhole(runs, After(runs, steps), k);
      LatestIsWhole(runs, After(runs, steps));
    }
  }

  lemma LatestRenamed(runs: seq<Run>, w: World, k: nat, part: nat)
    requires WorldInv(runs, w) && Enabled(runs, w, Next(k, part)) && w.done[k] == 12
    ensures var u := Apply(runs, w, Next(k, part));
            runs[k].id in u.dirs && Latest in u.files && u.files[Latest] == runs[k].id + "\n"
  {
    assert TempInv(runs, w, k, 2);
    assert Target(runs[k], 2) == Latest && Data(runs[k], 2) == runs[k].id + "\n";
  }

  /** The run that has just renamed its last file is the latest. */
  lemma LatestIsTheLast(runs: seq<Run>, steps: seq<Step>, k: nat, part: nat)
    requires ValidRuns(runs) && Possible(runs, steps) && Enabled(runs, After(runs, steps), Next(k, part)) && After(runs, steps).done[k] == 12
    ensures Resolve(Apply(runs, After(runs, steps), Next(k, part)), "latest") == Some(runs[k].id)
  {
    AfterInv(runs, steps);
    LatestRenamed(runs, After(runs, steps), k, part);
    TrimLine(runs[k].id);
  }

  // ---- one process's part, operation by operation ----

  lemma Extended(runs: seq<Run>, steps: seq<Step>, step: Step)
    requires Possible(runs, steps) && Enabled(runs, After(runs, steps), step)
    ensures Possible(runs, steps + [step]) && After(runs, steps + [step]) == Apply(runs, After(runs, steps), step)
  {
    assert (steps + [step])[..|steps + [step]| - 1] == steps;
  }

  /** The store's directory, reached by the steps of all processes so far. */
  class Disk {
    ghost const runs: seq<Run>
    var dirs: set<string>
    var files: map<Path, string>
    var index: seq<string>
    ghost var done: seq<nat>
    ghost var stopped: set<nat>
    ghost var steps: seq<Step>

    ghost function Value(): World
      reads this
    {
      World(dirs, files, index, done, stopped)
    }

    ghost predicate Valid()
      reads this
    {
      Possible(runs, steps) && Value() == After(runs, steps)
    }

    /** Run `k` is about to take step `at`. */
    ghost predicate Ready(k: nat, run: Run, at: nat)
      reads this
    {
      Valid() && |done| == |runs| && k < |runs| && runs[k] == run && k !in stopped && done[k] == at
    }

    constructor (ghost runs: seq<Run>)
      ensures Valid() && this.runs == runs && Value() == Empty(runs)
    {
      this.runs, dirs, files, index := runs, {}, map[], [];
      done, stopped, steps := seq(|runs|, _ => 0), {}, [];
    }

    /** Records a step that has just been taken. */
    ghost method Took(k: nat, run: Run, part: nat, before: World)
      requires Possible(runs, steps) && before == After(runs, steps) && |done| == |runs|
      requires k < |runs| && runs[k] == run && done == before.done && stopped == before.stopped && k !in stopped && done[k] < 14
      requires Value() == Operate(before, run, k, done[k], part)
      modifies this`done, this`steps
      ensures Ready(k, run, old(done[k]) + 1) && steps == old(steps) + [Next(k, part)]
    {
      Extended(runs, steps, Next(k, part));
      done := done[k := done[k] + 1];
      steps := steps + [Next(k, part)];
    }

    /** Giving up: the deferred removal of the temporary file, and no further step. */
    method Fail(k: nat, ghost run: Run, ghost at: nat)
      requires Ready(k, run, at) && at < 14
      modifies this
      ensures Valid() && k in stopped && steps == old(steps) + [Stop(k, true)]
    {
      Extended(runs, steps, Stop(k, true));
      files := files - {Temp(k, 0), Temp(k, 1), Temp(k, 2)};
      stopped := stopped + {k};
      steps := steps + [Stop(k, true)];
    }

    /** `Start` makes the directory of the run. */
    method Start(k: nat, run: Run)
      requires Ready(k, run, 0)
      modifies this
      ensures Ready(k, run, 1) && steps == old(steps) + [Next(k, 0)]
    {
      ghost var before := Value();
      dirs := dirs + {run.id};
      Took(k, run, 0, before);
    }

    method CreateTemp(k: nat, ghost run: Run, target: nat)
      requires target < 3 && Ready(k, run, 1 + 4 * target)
      modifies this
      ensures Ready(k, run, 2 + 4 * target) && steps == old(steps) + [Next(k, 0)]
    {
      PhaseOf(target, 0);
      ghost var before := Value();
      files := files[Temp(k, target) := ""];
      Took(k, run, 0, before);
    }

    /** Some of the data has reached the file. */
    method WritePart(k: nat, ghost run: Run, target: nat, data: string, part: nat)
      requires target < 3 && Ready(k, run, 2 + 4 * target) && data == Data(run, target) && part <= |data|
      modifies this
      ensures Ready(k, run, 3 + 4 * target) && steps == old(steps) + [Next(k, part)]
    {
      PhaseOf(target, 1);
      ghost var before := Value();
      files := files[Temp(k, target) := data[..part]];
      Took(k, run, part, before);
    }

    method WriteRest(k: nat, ghost run: Run, target: nat, data: string)
      requires target < 3 && Ready(k, run, 3 + 4 * target) && data == Data(run, target)
      modifies this
      ensures Ready(k, run, 4 + 4 * target) && steps == old(steps) + [Next(k, 0)]
    {
      PhaseOf(target, 2);
      ghost var before := Value();
      files := files[Temp(k, target) := data];
      Took(k, run, 0, before);
    }

    method Rename(k: nat, ghost run: Run, target: nat, path: Path)
      requires target < 3 && Ready(k, run, 4 + 4 * target) && path == Target(run, target)
      modifies this
      ensures Ready(k, run, 5 + 4 * target) && steps == old(steps) + [Next(k, 0)]
    {
      PhaseOf(target, 3);
      ghost var before := Value();
      if Temp(k, target) in files {
        files := files[path := files[Temp(k, target)]] - {Temp(k, target)};
      }
      Took(k, run, 0, before);
    }

    method AppendIndex(k: nat, run: Run)
      requires Ready(k, run, 13)
      modifies this
      ensures Ready(k, run, 14) && steps == old(steps) + [Next(k, 0)]
    {
      ghost var before := Value();
      index := index + [run.id];
      Took(k, run, 0, before);
    }

    /** Lines 176-196: the temporary file; operation `fault` fails, if there is one with that number. */
    method WriteTemp(k: nat, ghost run: Run, target: nat, data: string, part: nat, fault: nat) returns (ok: bool)
      requires target < 3 && Ready(k, run, 1 + 4 * target) && data == Data(run, target) && part <= |data|
      modifies this
      ensures ok <==> fault >= 3
      ensures ok ==> Ready(k, run, 4 + 4 * target) && steps == old(steps) + WriteSteps(k, part)[..3]
      ensures !ok ==> Valid() && k in stopped && steps == old(steps) + WriteSteps(k, part)[..fault] + [Stop(k, true)]
    {
      ok := false;
      if fault == 0 { Fail(k, run, 1 + 4 * target); return; }
      CreateTemp(k, run, target);
      if fault == 1 { Fail(k, run, 2 + 4 * target); return; }
      WritePart(k, run, target, data, part);
      if fault == 2 { Fail(k, run, 3 + 4 * target); return; }
      WriteRest(k, run, target, data);
      ok := true;
    }

    /** `atomicWrite`; operation `fault` fails, if there is one with that number. */
    method AtomicWrite(k: nat, run: Run, target: nat, part: nat, fault: nat) returns (ok: bool)
      requires target < 3 && Ready(k, run, 1 + 4 * target) && part <= |Data(run, target)|
      modifies this
      ensures ok <==> fault >= 4
      ensures ok ==> Ready(k, run, 5 + 4 * target) && steps == old(steps) + WriteSteps(k, part)
      ensures !ok ==> Valid() && k in stopped && steps == old(steps) + WriteSteps(k, part)[..fault] + [Stop(k, true)]
    {
      ok := WriteTemp(k, run, target, Data(run, target), part, fault);
      if !ok { return; }
      if fault == 3 {
        Fail(k, run, 4 + 4 * target);
        return false;
      }
      Rename(k, run, target, Target(run, target));
    }

    /** Lines 101-110: the two documents and then `latest`. */
    method WriteFiles(k: nat, run: Run, parts: seq<nat>, fault: nat) returns (ok: bool)
      requires Ready(k, run, 1) && |parts| == 3 && forall t | 0 <= t < 3 :: parts[t] <= |Data(run, t)|
      modifies this
      ensures ok <==> fault >= 12
      ensures ok ==> Ready(k, run, 13) && steps == old(steps) + FileSteps(k, parts)
      ensures !ok ==> Valid() && k in stopped && steps == old(steps) + FileSteps(k, parts)[..fault] + [Stop(k, true)]
    {
      ghost var first, second, third := WriteSteps(k, parts[0]), WriteSteps(k, parts[1]), WriteSteps(k, parts[2]);
      Prefixes(first, second, third, fault);
      ok := AtomicWrite(k, run, 0, parts[0], fault);
      if !ok { return; }
      ok := AtomicWrite(k, run, 1, parts[1], fault - 4);
      if !ok { return; }
      ok := AtomicWrite(k, run, 2, parts[2], fault - 8);
    }

    /**
     `Complete`: the three atomic writes in order and then the line in the index. An operation that fails
     ends it, and nothing after it is done.
     */
    method Complete(k: nat, run: Run, parts: seq<nat>, fault: nat) returns (ok: bool)
      requires Ready(k, run, 1) && |parts| == 3 && forall t | 0 <= t < 3 :: parts[t] <= |Data(run, t)|
      modifies this
      ensures Valid() && (ok <==> fault >= 13)
      ensures ok ==> steps == old(steps) + FileSteps(k, parts) + [Next(k, 0)]
      ensures !ok ==> k in stopped && steps == old(steps) + FileSteps(k, parts)[..fault] + [Stop(k, true)]
    {
      ok := WriteFiles(k, run, parts, fault);
      if !ok { return; }
      if fault == 12 {
        Fail(k, run, 13);
        return false;
      }
      AppendIndex(k, run);
    }
  }

  function WriteSteps(k: nat, part: nat): seq<Step> {
    [Next(k, 0), Next(k, part), Next(k, 0), Next(k, 0)]
  }

  lemma Prefixes(first: seq<Step>, second: seq<Step>, third: seq<Step>, n: nat)
    requires |first| == |second| == |third| == 4
    ensures n < 4 ==> (first + second + third)[..n] == first[..n]
    ensures 4 <= n < 8 ==> (first + second + third)[..n] == first + second[..n - 4]
    ensures 8 <= n < 12 ==> (first + second + third)[..n] == first + second + third[..n - 8]
  {
  }

  function FileSteps(k: nat, parts: seq<nat>): (steps: seq<Step>)
    requires |parts| == 3
    ensures |steps| == 12
  {
    WriteSteps(k, parts[0]) + WriteSteps(k, parts[1]) + WriteSteps(k, parts[2])
  }
}
