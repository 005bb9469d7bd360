/**
 What a run of the queue promises (scheduler.go:32-122), in terms of the nodes' own weights, ranks and
 needs and of the completions the loop received.
 */
module Runs {
  import opened Model
  import opened Queue
  import opened Ranking
  import opened Scheduling
  import opened Completeness

  // ---- slots ----

  function SlotsTaken(cfg: Config, s: State): nat { Occupied(cfg, s.inFlight, cfg.N()) }

  /** At no time do the nodes in flight take more slots than there are. */
  lemma SlotsNeverExceeded(cfg: Config, ctxErr: bool, run: seq<Choice>)
    requires cfg.Valid() && Legal(cfg, ctxErr, run)
    ensures SlotsTaken(cfg, After(cfg, ctxErr, run)) <= cfg.slots
  {
    LoadIsOccupied(cfg, After(cfg, ctxErr, run).inFlight, cfg.N());
  }

  lemma {:induction false} OccupiedMonotone(cfg: Config, s: set<nat>, t: set<nat>, n: nat)
    requires s <= t && n <= cfg.N()
    ensures Occupied(cfg, s, n) <= Occupied(cfg, t, n)
  {
    if n > 0 { OccupiedMonotone(cfg, s, t, n - 1); }
  }

  lemma {:induction false} OccupiedNothing(cfg: Config, n: nat)
    requires n <= cfg.N()
    ensures Occupied(cfg, {}, n) == 0
  {
    if n > 0 { OccupiedNothing(cfg, n - 1); }
  }

  /** The node does not fit beside the nodes in `s`. */
  predicate TooWide(cfg: Config, s: set<nat>, i: nat)
    requires i < cfg.N()
  {
    if cfg.nodes[i].weight <= cfg.slots then Occupied(cfg, s, cfg.N()) + cfg.nodes[i].weight > cfg.slots
    else Occupied(cfg, s, cfg.N()) > 0
  }

  lemma TooWideMonotone(cfg: Config, s: set<nat>, t: set<nat>, i: nat)
    requires i < cfg.N() && s <= t && TooWide(cfg, s, i)
    ensures TooWide(cfg, t, i)
  {
    OccupiedMonotone(cfg, s, t, cfg.N());
  }

  lemma DoesNotFit(cfg: Config, s: State, p: nat)
    requires p < |s.ready| && s.ready[p] < cfg.N()
    ensures !Fits(cfg, s, p) <==> TooWide(cfg, s.inFlight, s.ready[p])
  {
    LoadIsOccupied(cfg, s.inFlight, cfg.N());
  }

  /** The pass that followed the last receive, or the first pass, was stopped. */
  ghost predicate PassStopped(cfg: Config, ctxErr: bool, run: seq<Choice>) {
    || (cfg.failFast && exists k :: 0 <= k < |run| && run[k].outcome.failed)
    || (if run == [] then ctxErr else run[|run| - 1].ctxErr)
  }

  /**
   After a pass that was not stopped, every ready node waits because its own weight exceeds what the
   nodes in flight leave; a node wider than the pool waits only while something is in flight.
   */
  lemma WaitingDoesNotFit(cfg: Config, ctxErr: bool, run: seq<Choice>, i: nat)
    requires cfg.Valid() && Legal(cfg, ctxErr, run) && !PassStopped(cfg, ctxErr, run)
    requires i in After(cfg, ctxErr, run).ready
    ensures i < cfg.N()
    ensures var s := After(cfg, ctxErr, run);
            && (cfg.nodes[i].weight <= cfg.slots ==> cfg.nodes[i].weight > cfg.slots - SlotsTaken(cfg, s))
            && (cfg.nodes[i].weight > cfg.slots ==> s.inFlight != {})
  {
    var s := After(cfg, ctxErr, run);
    NotStopped(cfg, ctxErr, run);
    LastPass(cfg, ctxErr, run);
    assert s.Released(i);
    var p: nat :| p < |s.ready| && s.ready[p] == i;
    DoesNotFit(cfg, s, p);
    OccupiedNothing(cfg, cfg.N());
  }

  // ---- what the loop received is what it knows ----

  lemma {:induction false} LegalPrefix(cfg: Config, ctxErr: bool, run: seq<Choice>, n: nat)
    requires cfg.Valid() && Legal(cfg, ctxErr, run) && n <= |run|
    ensures Legal(cfg, ctxErr, run[..n])
    decreases |run|
  {
    if n < |run| {
      LegalPrefix(cfg, ctxErr, run[..|run| - 1], n);
      assert run[..|run| - 1][..n] == run[..n];
    } else {
      assert run[..n] == run;
    }
  }

  /** Exactly the nodes received have completed, each with the outcome that was received for it. */
  ghost predicate Knows(s: State, run: seq<Choice>) {
    && (forall b | 0 <= b < |run| :: run[b].index in s.completed && s.completed[run[b].index] == run[b].outcome)
    && (forall i: nat | i in s.completed :: exists b :: 0 <= b < |run| && run[b].index == i)
  }

  lemma KnowsNext(cfg: Config, s: State, run: seq<Choice>, c: Choice)
    requires Inv(cfg, s) && c.index in s.inFlight && Knows(s, run)
    ensures Knows(Dispatch(cfg, Complete(cfg, s, c.index, c.outcome), c.ctxErr), run + [c])
  {
    var t, longer := Complete(cfg, s, c.index, c.outcome), run + [c];
    CompleteInv(cfg, s, c.index, c.outcome);
    GreedyInv(cfg, t);
    assert longer[|run|] == c;
    forall b | 0 <= b < |longer| ensures longer[b].index in t.completed && t.completed[longer[b].index] == longer[b].outcome {
      if b < |run| { assert longer[b] == run[b]; }
    }
    forall i: nat | i in t.completed ensures exists b :: 0 <= b < |longer| && longer[b].index == i {
      if i in s.completed {
        var b :| 0 <= b < |run| && run[b].index == i;
        assert longer[b].index == i;
      }
    }
  }

  lemma {:induction false} RunKnows(cfg: Config, ctxErr: bool, run: seq<Choice>)
    requires cfg.Valid() && Legal(cfg, ctxErr, run)
    ensures Knows(After(cfg, ctxErr, run), run)
    decreases |run|
  {
    if run == [] {
      StartInv(cfg);
      GreedyInv(cfg, Start(cfg));
    } else {
      var before, c := run[..|run| - 1], run[|run| - 1];
      RunKnows(cfg, ctxErr, before);
      KnowsNext(cfg, After(cfg, ctxErr, before), before, c);
      assert before + [c] == run;
    }
  }

  lemma FailedMeans(cfg: Config, ctxErr: bool, run: seq<Choice>)
    requires cfg.Valid() && Legal(cfg, ctxErr, run)
    ensures After(cfg, ctxErr, run).AnyFailed() <==> exists k :: 0 <= k < |run| && run[k].outcome.failed
  {
    RunKnows(cfg, ctxErr, run);
    var s := After(cfg, ctxErr, run);
    if s.AnyFailed() {
      var i :| i in s.completed && s.completed[i].failed;
      var k :| 0 <= k < |run| && run[k].index == i;
      assert run[k].outcome.failed;
    }
  }

  lemma NotStopped(cfg: Config, ctxErr: bool, run: seq<Choice>)
    requires cfg.Valid() && Legal(cfg, ctxErr, run)
    ensures Stopped(cfg, After(cfg, ctxErr, run), LastCtxErr(ctxErr, run)) <==> PassStopped(cfg, ctxErr, run)
  {
    FailedMeans(cfg, ctxErr, run);
  }

  /** The result of each node is what was received for it, and a node that was not received has none. */
  ghost predicate Reports(cfg: Config, run: seq<Choice>, results: seq<NodeResult>) {
    && |results| == cfg.N()
    && (forall b | 0 <= b < |run| :: run[b].index < cfg.N() &&
          results[run[b].index] == NodeResult(true, run[b].outcome.failed, run[b].outcome.err))
    && (forall i: nat | i < cfg.N() && (forall b | 0 <= b < |run| :: run[b].index != i) :: results[i] == NodeResult(false, false, None))
  }

  lemma ResultsCarryOutcomes(cfg: Config, ctxErr: bool, run: seq<Choice>, results: seq<NodeResult>)
    requires cfg.Valid() && EndsWith(cfg, ctxErr, run, results)
    ensures Reports(cfg, run, results)
  {
    var s := After(cfg, ctxErr, run);
    RunKnows(cfg, ctxErr, run);
    forall b | 0 <= b < |run|
      ensures run[b].index < cfg.N() && results[run[b].index] == NodeResult(true, run[b].outcome.failed, run[b].outcome.err)
    {
      assert s.Released(run[b].index);
    }
  }

  /** Without a stop a node has run exactly if no chain of its needs comes back to itself. */
  lemma ResultsComplete(cfg: Config, ctxErr: bool, run: seq<Choice>, results: seq<NodeResult>, i: nat)
    requires cfg.Valid() && EndsWith(cfg, ctxErr, run, results) && !PassStopped(cfg, ctxErr, run) && i < cfg.N()
    ensures results[i].dispatched <==> !ReachesCycle(cfg, i)
  {
    NotStopped(cfg, ctxErr, run);
    RunComplete(cfg, ctxErr, run);
  }

  // ---- order ----

  /** A node is in flight only when each of its needs has been received, and is received once. */
  lemma NeedsComeFirst(cfg: Config, ctxErr: bool, run: seq<Choice>)
    requires cfg.Valid() && Legal(cfg, ctxErr, run)
    ensures forall i: nat, need: nat | i in After(cfg, ctxErr, run).inFlight && i < cfg.N() && need in cfg.nodes[i].needs ::
              exists b :: 0 <= b < |run| && run[b].index == need
    ensures forall i: nat | i in After(cfg, ctxErr, run).inFlight :: i < cfg.N() && forall b | 0 <= b < |run| :: run[b].index != i
  {
    var s := After(cfg, ctxErr, run);
    RunKnows(cfg, ctxErr, run);
    forall i: nat | i in s.inFlight ensures i < cfg.N() && forall need | need in cfg.nodes[i].needs :: need in s.completed {
      assert s.Released(i);
    }
  }

  lemma {:induction false} RootsAscend(cfg: Config, n: nat)
    requires n <= cfg.N()
    ensures forall a, b | 0 <= a < b < |Roots(cfg, n)| :: Roots(cfg, n)[a] < Roots(cfg, n)[b]
  {
    if n > 0 {
      RootsMembers(cfg, n - 1);
      RootsAscend(cfg, n - 1);
      var before := Roots(cfg, n - 1);
      forall a | 0 <= a < |before| ensures before[a] < n - 1 { assert before[a] in before; }
    }
  }

  /** The list starts with exactly the nodes without needs, by descending rank and, among equal ranks, in the order of the schedule. */
  lemma StartOrder(cfg: Config, a: nat, b: nat)
    requires cfg.Valid()
    ensures forall i: nat :: i in Start(cfg).ready <==> i < cfg.N() && cfg.nodes[i].needs == []
    ensures a < b < |Start(cfg).ready| ==>
              var x, y := Start(cfg).ready[a], Start(cfg).ready[b];
              x < cfg.N() && y < cfg.N() && (cfg.nodes[x].rank > cfg.nodes[y].rank || (cfg.nodes[x].rank == cfg.nodes[y].rank && x < y))
  {
    RootsMembers(cfg, cfg.N());
    RootsAscend(cfg, cfg.N());
    SortedMembers(cfg, Roots(cfg, cfg.N()));
    if a < b < |Start(cfg).ready| {
      var x, y := Start(cfg).ready[a], Start(cfg).ready[b];
      assert x in Start(cfg).ready && y in Start(cfg).ready;
      if cfg.Rank(x) == cfg.Rank(y) {
        var p, q := TiesKeepOrder(cfg.Rank, Roots(cfg, cfg.N()), a, b);
      }
    }
  }

  lemma {:induction false} NewlyReadyAscend(cfg: Config, done: set<nat>, last: nat, n: nat)
    requires n <= cfg.N()
    ensures forall a, b | 0 <= a < b < |NewlyReady(cfg, done, last, n)| ::
              NewlyReady(cfg, done, last, n)[a] < NewlyReady(cfg, done, last, n)[b]
  {
    if n > 0 {
      NewlyReadyMembers(cfg, done, last, n - 1);
      NewlyReadyAscend(cfg, done, last, n - 1);
      var before := NewlyReady(cfg, done, last, n - 1);
      forall a | 0 <= a < |before| ensures before[a] < n - 1 { assert before[a] in before; }
    }
  }

  /** `x` was waiting ahead of `y`, or waited when `y` was released, or both were released now and `x` comes first in the schedule. */
  ghost predicate CameFirst(s: State, x: nat, y: nat) {
    || (exists p, q :: 0 <= p < q < |s.ready| && s.ready[p] == x && s.ready[q] == y)
    || (x in s.ready && y !in s.ready)
    || (x !in s.ready && y !in s.ready && x < y)
  }

  /** A completion keeps the list in the order of descending ranks, and among equal ranks in the order of release. */
  lemma CompleteOrder(cfg: Config, s: State, i: nat, o: Outcome, a: nat, b: nat)
    requires Inv(cfg, s) && i in s.inFlight && a < b < |Complete(cfg, s, i, o).ready|
    ensures var x, y := Complete(cfg, s, i, o).ready[a], Complete(cfg, s, i, o).ready[b];
            && x < cfg.N() && y < cfg.N()
            && (cfg.nodes[x].rank > cfg.nodes[y].rank || (cfg.nodes[x].rank == cfg.nodes[y].rank && CameFirst(s, x, y)))
  {
    var t := Complete(cfg, s, i, o);
    var x, y := t.ready[a], t.ready[b];
    CompleteInv(cfg, s, i, o);
    assert t.Released(x) && t.Released(y);
    if cfg.Rank(x) == cfg.Rank(y) {
      var newly := NewlyReady(cfg, t.completed.Keys, i, cfg.N());
      var p, q := TiesKeepOrder(cfg.Rank, s.ready + newly, a, b);
      NewlyReadyMembers(cfg, t.completed.Keys, i, cfg.N());
      NewlyReadyAscend(cfg, t.completed.Keys, i, cfg.N());
      ReleasedAreFresh(cfg, s, i, t.completed.Keys);
    }
  }

  lemma ReleasedAreFresh(cfg: Config, s: State, i: nat, done: set<nat>)
    requires Inv(cfg, s) && i in s.inFlight
    ensures forall j | j in NewlyReady(cfg, done, i, cfg.N()) :: j !in s.ready
  {
    NewlyReadyMembers(cfg, done, i, cfg.N());
    forall j | j in NewlyReady(cfg, done, i, cfg.N()) ensures j !in s.ready {
      NewlyReadyFresh(cfg, s, i, j);
    }
  }

  /** The nodes launched from `s` to `t` that rank at least as high as `y`. */
  function LaunchedAbove(cfg: Config, s: State, t: State, y: nat): set<nat> {
    set z | z in t.inFlight && z !in s.inFlight && cfg.Rank(z) >= cfg.Rank(y)
  }

  lemma HigherComesFirst(cfg: Config, s: State, p: nat, y: nat)
    requires Ranked(cfg.Rank, s.ready) && p < |s.ready| && y in s.ready && cfg.Rank(s.ready[p]) < cfg.Rank(y)
    ensures exists q: nat :: q < p && s.ready[q] == y
  {
    var q: nat :| q < |s.ready| && s.ready[q] == y;
    assert q < p;
  }

  lemma LaunchedAboveNext(cfg: Config, s: State, p: nat, t: State, y: nat)
    requires Inv(cfg, s) && p < |s.ready| && Launch(s, p).inFlight <= t.inFlight
    requires cfg.Rank(s.ready[p]) >= cfg.Rank(y)
    ensures s.inFlight + LaunchedAbove(cfg, s, t, y) == Launch(s, p).inFlight + LaunchedAbove(cfg, Launch(s, p), t, y)
  {
    assert s.ready[p] in s.ready;
  }

  /**
   No priority is inverted: a node that a pass leaves waiting does not fit beside the nodes that were in
   flight and those that the pass launched ranking at least as high. Nodes of lower rank only use slots
   it could not have used.
   */
  lemma {:induction false} LowerRanksOnlyBackfill(cfg: Config, s: State, y: nat)
    requires Inv(cfg, s) && y in Greedy(cfg, s).ready
    ensures y < cfg.N() && TooWide(cfg, s.inFlight + LaunchedAbove(cfg, s, Greedy(cfg, s), y), y)
    decreases |s.ready|
  {
    var p, t := FirstFit(cfg, s, 0), Greedy(cfg, s);
    GreedyInv(cfg, s);
    WaitedBefore(cfg, s, y);
    if p == |s.ready| {
      var q: nat :| q < |s.ready| && s.ready[q] == y;
      DoesNotFit(cfg, s, q);
      assert s.inFlight + LaunchedAbove(cfg, s, t, y) == s.inFlight;
    } else {
      LaunchInv(cfg, s, p);
      GreedyInv(cfg, Launch(s, p));
      if cfg.Rank(s.ready[p]) >= cfg.Rank(y) {
        LowerRanksOnlyBackfill(cfg, Launch(s, p), y);
        LaunchedAboveNext(cfg, s, p, t, y);
      } else {
        HigherComesFirst(cfg, s, p, y);
        var q: nat :| q < p && s.ready[q] == y;
        DoesNotFit(cfg, s, q);
        TooWideMonotone(cfg, s.inFlight, s.inFlight + LaunchedAbove(cfg, s, t, y), y);
      }
    }
  }

  lemma {:induction false} WaitedBefore(cfg: Config, s: State, y: nat)
    requires Inv(cfg, s) && y in Greedy(cfg, s).ready
    ensures y in s.ready && y < cfg.N()
    decreases |s.ready|
  {
    var p := FirstFit(cfg, s, 0);
    if p < |s.ready| {
      LaunchInv(cfg, s, p);
      WaitedBefore(cfg, Launch(s, p), y);
      LaunchMembers(s, p);
    }
    assert s.Released(y);
  }

  // ---- stopping ----

  /** From the start no pass sees the context cancelled later than the first time. */
  lemma StickyFrom(ctxErr: bool, run: seq<Choice>, k: nat, m: nat)
    requires Sticky(ctxErr, run) && k <= m < |run| && run[k].ctxErr
    ensures run[m].ctxErr
  {
  }

  /**
   Nothing is started after the loop has received a failure in fail-fast mode, or a completion at which
   the context was cancelled: the nodes started are those that had been started before.
   */
  lemma NothingStartsAfterStop(cfg: Config, ctxErr: bool, run: seq<Choice>, k: nat)
    requires cfg.Valid() && Legal(cfg, ctxErr, run) && Sticky(ctxErr, run) && k < |run|
    requires (cfg.failFast && run[k].outcome.failed) || run[k].ctxErr
    ensures Legal(cfg, ctxErr, run[..k])
    ensures var s, t := After(cfg, ctxErr, run[..k]), After(cfg, ctxErr, run);
            t.inFlight + t.completed.Keys == s.inFlight + s.completed.Keys
  {
    var upTo := run[..k + 1];
    LegalPrefix(cfg, ctxErr, run, k);
    LegalPrefix(cfg, ctxErr, run, k + 1);
    assert upTo[..|upTo| - 1] == run[..k] && upTo[|upTo| - 1] == run[k];
    StopsHere(cfg, After(cfg, ctxErr, run[..k]), run[k]);
    assert upTo[k].outcome.failed == run[k].outcome.failed;
    FailedMeans(cfg, ctxErr, upTo);
    if run[k].ctxErr {
      forall m: nat | k + 1 <= m < |run| ensures run[m].ctxErr {
        StickyFrom(ctxErr, run, k, m);
      }
    }
    HeldBack(cfg, ctxErr, run, k + 1);
  }

  /** The pass right after such a receive launches nothing. */
  lemma StopsHere(cfg: Config, s: State, c: Choice)
    requires Inv(cfg, s) && c.index in s.inFlight && (c.ctxErr || (c.outcome.failed && cfg.failFast))
    ensures var t := Dispatch(cfg, Complete(cfg, s, c.index, c.outcome), c.ctxErr);
            t.inFlight + t.completed.Keys == s.inFlight + s.completed.Keys
  {
    CompleteKeeps(cfg, s, c.index, c.outcome);
    var t := Complete(cfg, s, c.index, c.outcome);
    assert t.Dispatched() == t.inFlight + t.completed.Keys && s.Dispatched() == s.inFlight + s.completed.Keys;
  }

  /** If the context is cancelled before the first pass, nothing is started at all. */
  lemma {:induction false} NothingStartsWhenCancelled(cfg: Config, run: seq<Choice>)
    requires cfg.Valid() && Legal(cfg, true, run)
    ensures run == [] && After(cfg, true, run).inFlight == {}
    decreases |run|
  {
    if run != [] {
      NothingStartsWhenCancelled(cfg, run[..|run| - 1]);
    }
  }
}
