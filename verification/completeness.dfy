/**
 Which nodes a run reaches. Every run is topological; a run that is never stopped dispatches
 exactly the nodes whose needs chains are free of cycles, whatever the weights, the slot count and
 the order of completions (scheduler.go:48-121).
 */
module Completeness {
  import opened Model
  import opened Queue
  import opened Scheduling

  // ---- needs chains ----

  /** Each element of the chain lists the following one among its needs. */
  ghost predicate Chain(cfg: Config, p: seq<nat>) {
    && p != []
    && (forall k | 0 <= k < |p| :: p[k] < cfg.N())
    && (forall k | 0 <= k < |p| - 1 :: p[k + 1] in cfg.nodes[p[k]].needs)
  }

  ghost predicate Repeats(p: seq<nat>) {
    exists a, b | 0 <= a < b < |p| :: p[a] == p[b]
  }

  /** Some chain of needs that starts at `i` comes back to a node it has visited. */
  ghost predicate ReachesCycle(cfg: Config, i: nat) {
    exists p :: Chain(cfg, p) && p[0] == i && Repeats(p)
  }

  lemma NeedReachesCycle(cfg: Config, i: nat) returns (need: nat)
    requires cfg.Valid() && ReachesCycle(cfg, i)
    ensures i < cfg.N() && need in cfg.nodes[i].needs && ReachesCycle(cfg, need)
  {
    var p :| Chain(cfg, p) && p[0] == i && Repeats(p);
    var a, b :| 0 <= a < b < |p| && p[a] == p[b];
    need := p[1];
    assert p[0 + 1] in cfg.nodes[p[0]].needs;
    if a > 0 {
      var q := p[1..];
      forall k | 0 <= k < |q| - 1 ensures q[k + 1] in cfg.nodes[q[k]].needs {
        assert p[k + 1 + 1] in cfg.nodes[p[k + 1]].needs;
      }
      assert q[a - 1] == q[b - 1];
      assert Chain(cfg, q) && q[0] == need && Repeats(q);
    } else {
      var q := p[1..b + 1] + [need];
      forall k | 0 <= k < |q| - 1 ensures q[k + 1] in cfg.nodes[q[k]].needs {
        assert q[k] == p[k + 1];
        if k == b - 1 {
          assert q[k] == p[0] && q[k + 1] == p[1];
        } else {
          assert q[k + 1] == p[k + 2];
        }
      }
      assert q[0] == q[b];
      assert Chain(cfg, q) && q[0] == need && Repeats(q);
    }
  }

  // ---- nothing behind a cycle is ever released ----

  ghost predicate Grounded(cfg: Config, s: State) {
    forall i: nat | s.Released(i) :: !ReachesCycle(cfg, i)
  }

  lemma GroundedByNeeds(cfg: Config, done: set<nat>, i: nat)
    requires cfg.Valid() && i < cfg.N() && cfg.NeedsMet(done, i)
    requires forall j: nat | j in done :: !ReachesCycle(cfg, j)
    ensures !ReachesCycle(cfg, i)
  {
    if ReachesCycle(cfg, i) {
      var need := NeedReachesCycle(cfg, i);
    }
  }

  lemma StartGrounded(cfg: Config)
    requires cfg.Valid()
    ensures Grounded(cfg, Start(cfg))
  {
    StartInv(cfg);
    forall i: nat | Start(cfg).Released(i) ensures !ReachesCycle(cfg, i) {
      GroundedByNeeds(cfg, {}, i);
    }
  }

  lemma DispatchGrounded(cfg: Config, s: State, ctxErr: bool)
    requires Inv(cfg, s) && Grounded(cfg, s)
    ensures Grounded(cfg, Dispatch(cfg, s, ctxErr))
  {
    GreedyInv(cfg, s);
  }

  lemma CompleteGrounded(cfg: Config, s: State, i: nat, o: Outcome)
    requires Inv(cfg, s) && Grounded(cfg, s) && i in s.inFlight
    ensures Grounded(cfg, Complete(cfg, s, i, o))
  {
    CompleteInv(cfg, s, i, o);
    var t := Complete(cfg, s, i, o);
    assert t.completed.Keys == s.completed.Keys + {i};
    forall j: nat | j in t.completed.Keys ensures !ReachesCycle(cfg, j) {
      assert s.Released(j);
    }
    forall j: nat | t.Released(j) ensures !ReachesCycle(cfg, j) {
      GroundedByNeeds(cfg, t.completed.Keys, j);
    }
  }

  lemma {:induction false} RunGrounded(cfg: Config, ctxErr: bool, run: seq<Choice>)
    requires cfg.Valid() && Legal(cfg, ctxErr, run)
    ensures Grounded(cfg, After(cfg, ctxErr, run))
    decreases |run|
  {
    StartInv(cfg);
    if run == [] {
      StartGrounded(cfg);
      DispatchGrounded(cfg, Start(cfg), ctxErr);
    } else {
      var last, before := run[|run| - 1], run[..|run| - 1];
      RunGrounded(cfg, ctxErr, before);
      var s := After(cfg, ctxErr, before);
      CompleteInv(cfg, s, last.index, last.outcome);
      CompleteGrounded(cfg, s, last.index, last.outcome);
      DispatchGrounded(cfg, Complete(cfg, s, last.index, last.outcome), last.ctxErr);
    }
  }

  // ---- a node left behind by a settled queue sits behind a cycle ----

  /** Nothing is ready and nothing is in flight. */
  ghost predicate Settled(s: State) { s.ready == [] && s.inFlight == {} }

  /** From a node left behind, following uncompleted needs gives chains of any length. */
  lemma {:induction false} StuckChain(cfg: Config, s: State, i: nat, length: nat) returns (p: seq<nat>)
    requires Inv(cfg, s) && Settled(s) && i < cfg.N() && i !in s.completed
    requires length > 0
    ensures |p| == length && Chain(cfg, p) && p[0] == i
    decreases length
  {
    if length == 1 {
      p := [i];
    } else {
      assert !s.Released(i);
      var need :| need in cfg.nodes[i].needs && need !in s.completed.Keys;
      var tail := StuckChain(cfg, s, need, length - 1);
      p := [i] + tail;
      assert forall k | 0 < k < |p| :: p[k] == tail[k - 1];
    }
  }

  function Elements(p: seq<nat>): set<nat> { set x | x in p }

  lemma RepeatsGrow(p: seq<nat>, x: nat)
    ensures Repeats(p) ==> Repeats(p + [x])
  {
    if Repeats(p) {
      var a, b :| 0 <= a < b < |p| && p[a] == p[b];
      assert (p + [x])[a] == (p + [x])[b];
    }
  }

  lemma {:induction false} DistinctSize(p: seq<nat>)
    requires !Repeats(p)
    ensures |Elements(p)| == |p|
  {
    if p != [] {
      var init, x := p[..|p| - 1], p[|p| - 1];
      assert p == init + [x];
      RepeatsGrow(init, x);
      DistinctSize(init);
      assert Elements(p) == Elements(init) + {x};
      assert x !in Elements(init);
    }
  }

  lemma PigeonHole(n: nat, p: seq<nat>)
    requires forall k | 0 <= k < |p| :: p[k] < n
    requires |p| > n
    ensures Repeats(p)
  {
    if !Repeats(p) {
      DistinctSize(p);
      BoundedSet(n, Elements(p));
    }
  }

  lemma StuckReachesCycle(cfg: Config, s: State, i: nat)
    requires Inv(cfg, s) && Settled(s) && i < cfg.N() && i !in s.completed
    ensures ReachesCycle(cfg, i)
  {
    var p := StuckChain(cfg, s, i, cfg.N() + 1);
    PigeonHole(cfg.N(), p);
  }

  /** Every capped weight fits an idle pool, so a pass over an idle queue leaves nothing ready. */
  lemma IdlePassDrains(cfg: Config, s: State)
    requires Inv(cfg, s) && NothingFits(cfg, s) && s.inFlight == {}
    ensures s.ready == []
  {
    LoadEmpty(cfg, cfg.N());
    if s.ready != [] {
      assert Fits(cfg, s, 0);
    }
  }

  // ---- the theorems about runs ----

  lemma LastPass(cfg: Config, ctxErr: bool, run: seq<Choice>)
    requires cfg.Valid() && Legal(cfg, ctxErr, run)
    ensures !Stopped(cfg, After(cfg, ctxErr, run), LastCtxErr(ctxErr, run)) ==> NothingFits(cfg, After(cfg, ctxErr, run))
  {
    var pre := if run == [] then Start(cfg)
               else Complete(cfg, After(cfg, ctxErr, run[..|run| - 1]), run[|run| - 1].index, run[|run| - 1].outcome);
    if run == [] {
      StartInv(cfg);
    } else {
      CompleteInv(cfg, After(cfg, ctxErr, run[..|run| - 1]), run[|run| - 1].index, run[|run| - 1].outcome);
    }
    GreedyInv(cfg, pre);
    assert After(cfg, ctxErr, run) == Dispatch(cfg, pre, LastCtxErr(ctxErr, run));
  }

  /**
   Completeness without deadlock: when a run ends and its last pass was not stopped, the nodes that
   were dispatched and completed are exactly those from which no needs chain reaches a cycle.
   */
  lemma RunComplete(cfg: Config, ctxErr: bool, run: seq<Choice>)
    requires cfg.Valid() && Legal(cfg, ctxErr, run) && After(cfg, ctxErr, run).inFlight == {}
    requires !Stopped(cfg, After(cfg, ctxErr, run), LastCtxErr(ctxErr, run))
    ensures forall i: nat | i < cfg.N() :: i in After(cfg, ctxErr, run).completed <==> !ReachesCycle(cfg, i)
  {
    var s := After(cfg, ctxErr, run);
    RunGrounded(cfg, ctxErr, run);
    LastPass(cfg, ctxErr, run);
    IdlePassDrains(cfg, s);
    forall i: nat | i < cfg.N() ensures i in s.completed <==> !ReachesCycle(cfg, i) {
      if i in s.completed {
        assert s.Released(i);
      } else {
        StuckReachesCycle(cfg, s, i);
      }
    }
  }

  /** What a received completion does to the nodes dispatched so far and to the failure flag. */
  lemma CompleteKeeps(cfg: Config, s: State, i: nat, o: Outcome)
    requires Inv(cfg, s) && i in s.inFlight
    ensures Complete(cfg, s, i, o).Dispatched() == s.Dispatched()
    ensures s.AnyFailed() || o.failed ==> Complete(cfg, s, i, o).AnyFailed()
  {
    var t := Complete(cfg, s, i, o);
    assert t.completed.Keys == s.completed.Keys + {i};
    assert t.completed[i] == o;
    if s.AnyFailed() {
      var j :| j in s.completed && s.completed[j].failed;
      assert t.completed[j].failed;
    }
  }

  /** A stopped pass: the completion is received and nothing is launched. */
  lemma StoppedStep(cfg: Config, s: State, c: Choice)
    requires Inv(cfg, s) && c.index in s.inFlight && (c.ctxErr || (s.AnyFailed() && cfg.failFast))
    ensures var t := Dispatch(cfg, Complete(cfg, s, c.index, c.outcome), c.ctxErr);
            t.Dispatched() == s.Dispatched() && (s.AnyFailed() ==> t.AnyFailed())
  {
    CompleteKeeps(cfg, s, c.index, c.outcome);
  }

  lemma {:induction false} HeldBack(cfg: Config, ctxErr: bool, run: seq<Choice>, n: nat)
    requires cfg.Valid() && Legal(cfg, ctxErr, run) && n <= |run| && Legal(cfg, ctxErr, run[..n])
    requires (cfg.failFast && After(cfg, ctxErr, run[..n]).AnyFailed()) || forall k | n <= k < |run| :: run[k].ctxErr
    ensures After(cfg, ctxErr, run).Dispatched() == After(cfg, ctxErr, run[..n]).Dispatched()
    ensures After(cfg, ctxErr, run[..n]).AnyFailed() ==> After(cfg, ctxErr, run).AnyFailed()
    decreases |run|
  {
    if n == |run| {
      assert run[..n] == run;
    } else {
      var before := run[..|run| - 1];
      assert before[..n] == run[..n];
      HeldBack(cfg, ctxErr, before, n);
      StoppedStep(cfg, After(cfg, ctxErr, before), run[|run| - 1]);
    }
  }

  /** Under a sticky context, every pass after one that saw ctx.Err() sees it too. */
  lemma StickyAfter(ctxErr: bool, run: seq<Choice>, more: seq<Choice>, k: nat)
    requires Sticky(ctxErr, run + more) && LastCtxErr(ctxErr, run) && k < |more|
    ensures more[k].ctxErr
  {
    var whole := run + more;
    assert whole[|run| + k] == more[k];
    assert run != [] ==> whole[|run| - 1].ctxErr;
  }

  /**
   Fail-fast: once a pass has been stopped, by a failure in fail-fast mode or by the context, nothing is
   dispatched any more; the nodes in flight drain.
   */
  lemma StoppedDrains(cfg: Config, ctxErr: bool, run: seq<Choice>, more: seq<Choice>)
    requires cfg.Valid() && Legal(cfg, ctxErr, run) && Legal(cfg, ctxErr, run + more) && Sticky(ctxErr, run + more)
    requires Stopped(cfg, After(cfg, ctxErr, run), LastCtxErr(ctxErr, run))
    ensures After(cfg, ctxErr, run + more).Dispatched() == After(cfg, ctxErr, run).Dispatched()
  {
    if LastCtxErr(ctxErr, run) {
      forall k: nat | k < |more| ensures more[k].ctxErr {
        StickyAfter(ctxErr, run, more, k);
      }
    }
    assert (run + more)[..|run|] == run;
    HeldBack(cfg, ctxErr, run + more, |run|);
  }

  /** The nodes that completed in `run`. */
  ghost function Indices(run: seq<Choice>): set<nat> {
    if run == [] then {} else Indices(run[..|run| - 1]) + {run[|run| - 1].index}
  }

  /** Every entry completes a node for the first time, after all the node's needs. */
  ghost predicate Topological(cfg: Config, run: seq<Choice>) {
    run == [] ||
    var before, i := run[..|run| - 1], run[|run| - 1].index;
    Topological(cfg, before) && i < cfg.N() && i !in Indices(before) && cfg.NeedsMet(Indices(before), i)
  }

  /** Each node is dispatched at most once and only after all its needs have completed. */
  lemma {:induction false} RunTopological(cfg: Config, ctxErr: bool, run: seq<Choice>)
    requires cfg.Valid() && Legal(cfg, ctxErr, run)
    ensures Topological(cfg, run)
    ensures After(cfg, ctxErr, run).completed.Keys == Indices(run)
    decreases |run|
  {
    if run == [] {
      StartInv(cfg);
      GreedyInv(cfg, Start(cfg));
    } else {
      var before, last := run[..|run| - 1], run[|run| - 1];
      RunTopological(cfg, ctxErr, before);
      var s := After(cfg, ctxErr, before);
      CompleteInv(cfg, s, last.index, last.outcome);
      GreedyInv(cfg, Complete(cfg, s, last.index, last.outcome));
      assert s.Released(last.index);
      assert Complete(cfg, s, last.index, last.outcome).completed.Keys == s.completed.Keys + {last.index};
    }
  }
}
