/**
 The event loop of `runQueue` (scheduler.go:39-128): waiting counters, dependents lists, an
 incrementally maintained ready list and a free-slot counter, proved to take exactly the steps of
 module `Queue`.
 */
module Scheduling {
  import opened Model
  import opened Ranking
  import opened Queue

  // ---- runs: the environment picks which node completes next, how, and when ctx.Err() is set ----

  /** One loop iteration: node `index` completes with `outcome`; `ctxErr` is what the following pass reads. */
  datatype Choice = Choice(index: nat, outcome: Outcome, ctxErr: bool)

  /** Every choice completes a node that is in flight at that moment. */
  ghost predicate Legal(cfg: Config, ctxErr: bool, run: seq<Choice>)
    requires cfg.Valid()
    decreases |run|, 0
  {
    run == [] ||
    var before := run[..|run| - 1];
    Legal(cfg, ctxErr, before) && run[|run| - 1].index in After(cfg, ctxErr, before).inFlight
  }

  /** The queue after an initial pass that read `ctxErr` and the completions in `run`. */
  ghost function After(cfg: Config, ctxErr: bool, run: seq<Choice>): (s: State)
    requires cfg.Valid() && Legal(cfg, ctxErr, run)
    ensures Inv(cfg, s)
    decreases |run|, 1
  {
    if run == [] then
      StartInv(cfg);
      GreedyInv(cfg, Start(cfg));
      Dispatch(cfg, Start(cfg), ctxErr)
    else
      var last := run[|run| - 1];
      var s := After(cfg, ctxErr, run[..|run| - 1]);
      CompleteInv(cfg, s, last.index, last.outcome);
      var t := Complete(cfg, s, last.index, last.outcome);
      GreedyInv(cfg, t);
      Dispatch(cfg, t, last.ctxErr)
  }

  // ---- counting outstanding needs ----

  function Count(s: seq<nat>, x: nat): nat {
    if s == [] then 0 else Count(s[..|s| - 1], x) + (if s[|s| - 1] == x then 1 else 0)
  }

  function Outstanding(needs: seq<nat>, done: set<nat>): nat {
    if needs == [] then 0
    else Outstanding(needs[..|needs| - 1], done) + (if needs[|needs| - 1] in done then 0 else 1)
  }

  /** The value of the waiting counter of node `d` when `done` has completed. */
  function Owed(cfg: Config, done: set<nat>, d: nat): nat {
    if d < cfg.N() then Outstanding(cfg.nodes[d].needs, done) else 0
  }

  lemma {:induction false} OutstandingNone(needs: seq<nat>)
    ensures Outstanding(needs, {}) == |needs|
  {
    if needs != [] { OutstandingNone(needs[..|needs| - 1]); }
  }

  lemma {:induction false} OutstandingZero(needs: seq<nat>, done: set<nat>)
    ensures Outstanding(needs, done) == 0 <==> forall need | need in needs :: need in done
  {
    if needs != [] {
      OutstandingZero(needs[..|needs| - 1], done);
      assert needs == needs[..|needs| - 1] + [needs[|needs| - 1]];
    }
  }

  /** One completion pays off every listing of that need, duplicates included. */
  lemma {:induction false} OutstandingDrop(needs: seq<nat>, done: set<nat>, x: nat)
    requires x !in done
    ensures Outstanding(needs, done + {x}) == Outstanding(needs, done) - Count(needs, x)
  {
    if needs != [] { OutstandingDrop(needs[..|needs| - 1], done, x); }
  }

  lemma {:induction false} CountIn(s: seq<nat>, x: nat)
    ensures Count(s, x) > 0 <==> x in s
  {
    if s != [] {
      CountIn(s[..|s| - 1], x);
      assert s == s[..|s| - 1] + [s[|s| - 1]];
    }
  }

  lemma CountAppend(s: seq<nat>, y: nat, x: nat)
    ensures Count(s + [y], x) == Count(s, x) + (if y == x then 1 else 0)
  {
    assert (s + [y])[..|s|] == s;
  }

  function Repeat(x: nat, count: nat): seq<nat> {
    if count == 0 then [] else Repeat(x, count - 1) + [x]
  }

  lemma {:induction false} CountRepeat(front: seq<nat>, d: nat, count: nat, x: nat)
    ensures Count(front + Repeat(d, count), x) == Count(front, x) + (if d == x then count else 0)
  {
    if count == 0 {
      assert front + Repeat(d, count) == front;
    } else {
      CountRepeat(front, d, count - 1, x);
      assert front + Repeat(d, count) == (front + Repeat(d, count - 1)) + [d];
      CountAppend(front + Repeat(d, count - 1), d, x);
    }
  }

  /** For each node below `n`, in index order, one entry for every time it lists `x` as a need. */
  function DependentsOf(cfg: Config, x: nat, n: nat): seq<nat>
    requires n <= cfg.N()
  {
    if n == 0 then [] else DependentsOf(cfg, x, n - 1) + Repeat(n - 1, Count(cfg.nodes[n - 1].needs, x))
  }

  lemma {:induction false} CountDependents(cfg: Config, x: nat, n: nat, d: nat)
    requires n <= cfg.N()
    ensures Count(DependentsOf(cfg, x, n), d) == if d < n then Count(cfg.nodes[d].needs, x) else 0
  {
    if n > 0 {
      CountDependents(cfg, x, n - 1, d);
      CountRepeat(DependentsOf(cfg, x, n - 1), n - 1, Count(cfg.nodes[n - 1].needs, x), d);
    }
  }

  /** The entries of `ds` at which a counter that started at the outstanding needs reaches zero. */
  function ReachedZero(cfg: Config, done: set<nat>, ds: seq<nat>): seq<nat> {
    if ds == [] then []
    else
      var d := ds[|ds| - 1];
      ReachedZero(cfg, done, ds[..|ds| - 1]) + (if Owed(cfg, done, d) == Count(ds, d) then [d] else [])
  }

  lemma ReachedAppend(cfg: Config, done: set<nat>, ds: seq<nat>, d: nat)
    ensures ReachedZero(cfg, done, ds + [d]) ==
            ReachedZero(cfg, done, ds) + (if Owed(cfg, done, d) == Count(ds + [d], d) then [d] else [])
  {
    assert (ds + [d])[..|ds + [d]| - 1] == ds;
  }

  /** One more listing of `d` behind `count` of them. */
  lemma RepeatStep(cfg: Config, done: set<nat>, front: seq<nat>, d: nat, count: nat)
    requires Count(front, d) == 0
    ensures ReachedZero(cfg, done, front + Repeat(d, count + 1)) ==
            ReachedZero(cfg, done, front + Repeat(d, count)) + (if Owed(cfg, done, d) == count + 1 then [d] else [])
  {
    var ds := front + Repeat(d, count);
    assert front + Repeat(d, count + 1) == ds + [d];
    CountRepeat(front, d, count + 1, d);
    assert Count(ds + [d], d) == count + 1;
    ReachedAppend(cfg, done, ds, d);
  }

  lemma {:induction false} ReachedRepeat(cfg: Config, done: set<nat>, front: seq<nat>, d: nat, count: nat)
    requires Count(front, d) == 0 && count <= Owed(cfg, done, d)
    ensures ReachedZero(cfg, done, front + Repeat(d, count)) ==
            ReachedZero(cfg, done, front) + (if count > 0 && count == Owed(cfg, done, d) then [d] else [])
  {
    if count == 0 {
      assert front + Repeat(d, count) == front;
    } else {
      ReachedRepeat(cfg, done, front, d, count - 1);
      RepeatStep(cfg, done, front, d, count - 1);
    }
  }

  /** Counting down through the dependents list finds exactly the nodes the completion releases. */
  lemma {:induction false} ReachedIsNewlyReady(cfg: Config, done: set<nat>, x: nat, n: nat)
    requires x !in done && n <= cfg.N()
    ensures ReachedZero(cfg, done, DependentsOf(cfg, x, n)) == NewlyReady(cfg, done + {x}, x, n)
  {
    if n > 0 {
      var d: nat := n - 1;
      var needs: seq<nat> := cfg.nodes[d].needs;
      ReachedIsNewlyReady(cfg, done, x, d);
      OutstandingDrop(needs, done, x);
      OutstandingZero(needs, done + {x});
      CountIn(needs, x);
      CountDependents(cfg, x, d, d);
      ReachedRepeat(cfg, done, DependentsOf(cfg, x, d), d, Count(needs, x));
    }
  }

  /** A missing key reads as the empty list. */
  function Entry(m: map<nat, seq<nat>>, x: nat): seq<nat> {
    if x in m then m[x] else []
  }

  /** `m` is `m0` with `index` appended to the list of each of the `needs`, once per listing. */
  ghost predicate Wired(m0: map<nat, seq<nat>>, m: map<nat, seq<nat>>, needs: seq<nat>, index: nat) {
    forall x: nat :: Entry(m, x) == Entry(m0, x) + Repeat(index, Count(needs, x))
  }

  lemma AppendCopies(base: seq<nat>, index: nat, needs: seq<nat>, need: nat, x: nat)
    ensures base + Repeat(index, Count(needs + [need], x)) ==
            base + Repeat(index, Count(needs, x)) + (if need == x then [index] else [])
  {
    CountAppend(needs, need, x);
    var copies := Repeat(index, Count(needs, x));
    assert base + (copies + [index]) == base + copies + [index];
  }

  lemma WiredStep(m0: map<nat, seq<nat>>, m: map<nat, seq<nat>>, needs: seq<nat>, need: nat, index: nat)
    requires Wired(m0, m, needs, index)
    ensures Wired(m0, m[need := Entry(m, need) + [index]], needs + [need], index)
  {
    var m' := m[need := Entry(m, need) + [index]];
    forall x: nat ensures Entry(m', x) == Entry(m0, x) + Repeat(index, Count(needs + [need], x)) {
      AppendCopies(Entry(m0, x), index, needs, need, x);
      assert Entry(m', x) == Entry(m, x) + (if need == x then [index] else []);
    }
  }

  /** The counters and lists once the nodes below `n` have been entered. */
  ghost predicate WiredUpTo(cfg: Config, n: nat, waiting: map<nat, int>, dependents: map<nat, seq<nat>>)
    requires n <= cfg.N()
  {
    && (forall d: nat :: d in waiting <==> d < n)
    && (forall d: nat | d < n :: waiting[d] == |cfg.nodes[d].needs|)
    && (forall x: nat :: Entry(dependents, x) == DependentsOf(cfg, x, n))
  }

  lemma WiredNone(cfg: Config)
    ensures WiredUpTo(cfg, 0, map[], map[])
  {}

  lemma WiredUpToStep(cfg: Config, n: nat, waiting: map<nat, int>, before: map<nat, seq<nat>>, after: map<nat, seq<nat>>)
    requires n < cfg.N() && WiredUpTo(cfg, n, waiting, before) && Wired(before, after, cfg.nodes[n].needs, n)
    ensures WiredUpTo(cfg, n + 1, waiting[n := |cfg.nodes[n].needs|], after)
  {
    forall x: nat ensures Entry(after, x) == DependentsOf(cfg, x, n + 1) {
      assert Entry(before, x) == DependentsOf(cfg, x, n);
    }
  }

  lemma WiredAll(cfg: Config, n: nat, waiting: map<nat, int>, dependents: map<nat, seq<nat>>)
    requires n == cfg.N() && WiredUpTo(cfg, n, waiting, dependents)
    ensures Counters(cfg, {}, waiting, dependents)
  {
    forall d: nat | d < cfg.N() ensures waiting[d] == Owed(cfg, {}, d) {
      OutstandingNone(cfg.nodes[d].needs);
    }
  }

  // ---- insertion by swapping ----

  /** Element `i` of `s` has been swapped forward to position `j`, past elements it outranks. */
  ghost predicate MovedUp(rank: nat -> real, s: seq<nat>, t: seq<nat>, i: nat, j: nat)
    requires j <= i < |s|
  {
    && t == s[..j] + [s[i]] + s[j..i] + s[i + 1..]
    && forall y | y in s[j..i] :: rank(y) < rank(s[i])
  }

  lemma MovedUpStep(rank: nat -> real, s: seq<nat>, t: seq<nat>, i: nat, j: nat)
    requires 0 < j <= i < |s| && MovedUp(rank, s, t, i, j)
    requires rank(t[j]) > rank(t[j - 1])
    ensures MovedUp(rank, s, t[j := t[j - 1]][j - 1 := t[j]], i, j - 1)
  {
    assert t[j] == s[i] && t[j - 1] == s[j - 1];
    assert s[j - 1..i] == [s[j - 1]] + s[j..i];
    assert s[..j] == s[..j - 1] + [s[j - 1]];
  }

  lemma MovedUpDone(rank: nat -> real, s: seq<nat>, t: seq<nat>, i: nat, j: nat)
    requires j <= i < |s| && MovedUp(rank, s, t, i, j)
    requires j == 0 || rank(t[j]) <= rank(t[j - 1])
    ensures |t| == |s| && t[..i + 1] == Insert(rank, s[..i], s[i]) && t[i + 1..] == s[i + 1..]
  {
    assert t[j] == s[i] && (j > 0 ==> t[j - 1] == s[..j][j - 1]);
    InsertAt(rank, s[..j], s[i], s[j..i]);
    assert s[..j] + s[j..i] == s[..i];
    assert t[..i + 1] == s[..j] + [s[i]] + s[j..i];
  }

  ghost predicate SortedPrefix(rank: nat -> real, s: seq<nat>, t: seq<nat>, i: nat) {
    i <= |t| == |s| && t[..i] == StableSort(rank, s[..i]) && t[i..] == s[i..]
  }

  lemma SortedPrefixStep(rank: nat -> real, s: seq<nat>, t: seq<nat>, i: nat)
    requires SortedPrefix(rank, s, t, i) && i < |t|
    ensures StableSort(rank, s[..i + 1]) == Insert(rank, t[..i], t[i]) && s[i + 1..] == t[i + 1..]
  {
    assert s[..i + 1][..i] == s[..i] && s[i] == s[i..][0] && t[i] == t[i..][0];
    assert s[i + 1..] == s[i..][1..] && t[i + 1..] == t[i..][1..];
  }

  // ---- one forward pass is the greedy choice repeated ----

  /** Free slots only shrink within a pass, so a node that was passed over never fits later in it. */
  lemma PassStep(cfg: Config, s: State, p: nat)
    requires Inv(cfg, s) && p < |s.ready| && Fits(cfg, s, p)
    requires forall q | 0 <= q < p :: !Fits(cfg, s, q)
    ensures Greedy(cfg, s) == Greedy(cfg, Launch(s, p))
    ensures forall q | 0 <= q < p :: !Fits(cfg, Launch(s, p), q)
  {
    assert FirstFit(cfg, s, 0) == p;
    LaunchInv(cfg, s, p);
    forall q | 0 <= q < p ensures !Fits(cfg, Launch(s, p), q) {
      assert !Fits(cfg, s, q) && Launch(s, p).ready[q] == s.ready[q];
    }
  }

  lemma PassEnd(cfg: Config, s: State)
    requires NothingFits(cfg, s)
    ensures Greedy(cfg, s) == s
  {
    assert FirstFit(cfg, s, 0) == |s.ready|;
  }

  lemma OwedDrop(cfg: Config, done: set<nat>, x: nat, d: nat)
    requires x !in done && d < cfg.N()
    ensures Owed(cfg, done + {x}, d) == Owed(cfg, done, d) - Count(DependentsOf(cfg, x, cfg.N()), d)
  {
    OutstandingDrop(cfg.nodes[d].needs, done, x);
    CountDependents(cfg, x, cfg.N(), d);
  }

  /** The counters after the listings in `ds` have been paid off. */
  ghost predicate Drained(cfg: Config, done: set<nat>, w: map<nat, int>, ds: seq<nat>) {
    && (forall d: nat :: d in w <==> d < cfg.N())
    && (forall d: nat | d < cfg.N() :: w[d] == Owed(cfg, done, d) - Count(ds, d))
  }

  /** Paying off entry `k` of `ds`; `front` is the ready list before the first entry. */
  lemma DrainedStep(cfg: Config, done: set<nat>, w: map<nat, int>, ds: seq<nat>, k: nat, front: seq<nat>)
    requires k < |ds| && ds[k] < cfg.N() && Drained(cfg, done, w, ds[..k])
    ensures Drained(cfg, done, w[ds[k] := w[ds[k]] - 1], ds[..k + 1])
    ensures front + ReachedZero(cfg, done, ds[..k + 1]) ==
            front + ReachedZero(cfg, done, ds[..k]) + (if w[ds[k]] == 1 then [ds[k]] else [])
  {
    var x := ds[k];
    assert ds[..k + 1] == ds[..k] + [x];
    forall d: nat | d < cfg.N() ensures w[x := w[x] - 1][d] == Owed(cfg, done, d) - Count(ds[..k + 1], d) {
      CountAppend(ds[..k], x, d);
    }
    CountAppend(ds[..k], x, x);
    assert ds[..k + 1][..k] == ds[..k];
    assert front + (ReachedZero(cfg, done, ds[..k]) + [x]) == front + ReachedZero(cfg, done, ds[..k]) + [x];
  }

  lemma DependentInRange(cfg: Config, x: nat, k: nat)
    requires k < |DependentsOf(cfg, x, cfg.N())|
    ensures DependentsOf(cfg, x, cfg.N())[k] < cfg.N()
  {
    var ds := DependentsOf(cfg, x, cfg.N());
    CountIn(ds, ds[k]);
    CountDependents(cfg, x, cfg.N(), ds[k]);
  }

  lemma DrainedAll(cfg: Config, done: set<nat>, x: nat, w: map<nat, int>)
    requires x !in done && Drained(cfg, done, w, DependentsOf(cfg, x, cfg.N()))
    ensures Drained(cfg, done + {x}, w, [])
  {
    forall d: nat | d < cfg.N() ensures w[d] == Owed(cfg, done + {x}, d) {
      OwedDrop(cfg, done, x, d);
    }
  }

  /** With nothing released the sorted ready list is left alone, which is what sorting would give. */
  lemma SortIdle(cfg: Config, s: seq<nat>)
    requires Ranked(cfg.Rank, s)
    ensures StableSort(cfg.Rank, s) == s
  {
    StableSortUnique(cfg.Rank, s, s);
  }

  // ---- how the loop's variables represent a queue state ----

  /** Each waiting counter is the number of outstanding listings; the dependents lists are complete. */
  ghost predicate Counters(cfg: Config, done: set<nat>, waiting: map<nat, int>, dependents: map<nat, seq<nat>>) {
    && Drained(cfg, done, waiting, [])
    && forall x: nat :: Entry(dependents, x) == DependentsOf(cfg, x, cfg.N())
  }

  ghost predicate Recorded(cfg: Config, s: State, results: seq<NodeResult>) {
    |results| == cfg.N() && forall i: nat | i < cfg.N() :: results[i] == s.ResultOf(i)
  }

  /** Slots are conserved and never overcommitted: free slots plus the load in flight is the pool. */
  ghost predicate Slots(cfg: Config, s: State, free: int, running: int) {
    && free + Load(cfg, cfg.N(), s.inFlight) == cfg.slots
    && 0 <= free <= cfg.slots
    && running == |s.inFlight|
  }

  lemma LaunchRepresented(cfg: Config, s: State, p: nat, free: int, running: int, results: seq<NodeResult>)
    returns (t: State)
    requires Inv(cfg, s) && p < |s.ready| && Fits(cfg, s, p)
    requires Slots(cfg, s, free, running) && Recorded(cfg, s, results)
    ensures t == Launch(s, p) && Inv(cfg, t)
    ensures s.ready[p] < cfg.N() && s.ready[p] < |results|
    ensures Slots(cfg, t, free - cfg.Cap(s.ready[p]), running + 1)
    ensures Recorded(cfg, t, results[s.ready[p] := results[s.ready[p]].(dispatched := true)])
  {
    LaunchInv(cfg, s, p);
    assert s.Released(s.ready[p]);
    t := Launch(s, p);
  }

  /** What the loop's variables must become for `t` to be the state after `i` has completed. */
  ghost predicate Retires(cfg: Config, s: State, i: nat, o: Outcome, free: int, running: int, results: seq<NodeResult>, t: State) {
    && t.inFlight == s.inFlight - {i} && t.completed.Keys == s.completed.Keys + {i}
    && t.ready == StableSort(cfg.Rank, s.ready + NewlyReady(cfg, s.completed.Keys + {i}, i, cfg.N()))
    && Slots(cfg, t, free + cfg.Cap(i), running - 1)
    && i < |results| && Recorded(cfg, t, results[i := results[i].(failed := o.failed, err := o.err)])
    && t.AnyFailed() == (s.AnyFailed() || o.failed)
  }

  lemma CompleteRepresented(cfg: Config, s: State, i: nat, o: Outcome, free: int, running: int, results: seq<NodeResult>)
    returns (t: State)
    requires Inv(cfg, s) && i in s.inFlight
    requires Slots(cfg, s, free, running) && Recorded(cfg, s, results)
    ensures t == Complete(cfg, s, i, o) && Inv(cfg, t)
    ensures i < cfg.N() && i !in s.completed && Ranked(cfg.Rank, s.ready)
    ensures Retires(cfg, s, i, o, free, running, results, t)
  {
    CompleteInv(cfg, s, i, o);
    assert s.Released(i);
    t := Complete(cfg, s, i, o);
    assert t.completed.Keys == s.completed.Keys + {i};
    assert forall j | j in s.completed :: t.completed[j] == s.completed[j];
    assert t.completed[i] == o;
  }

  /** Before the first pass: all slots free, nothing recorded. */
  lemma StartRepresented(cfg: Config, results: seq<NodeResult>)
    requires cfg.Valid() && |results| == cfg.N()
    requires forall i | 0 <= i < |results| :: results[i] == NodeResult(false, false, None)
    ensures Inv(cfg, Start(cfg)) && Slots(cfg, Start(cfg), cfg.slots, 0) && Recorded(cfg, Start(cfg), results)
    ensures Start(cfg).completed.Keys == {} && Start(cfg).inFlight == {} && !Start(cfg).AnyFailed()
    ensures Start(cfg).ready == StableSort(cfg.Rank, Roots(cfg, cfg.N()))
  {
    StartInv(cfg);
    LoadEmpty(cfg, cfg.N());
  }

  // ---- the loop ----

  /** The variables `runQueue` and its `dispatch` closure share. */
  class QueueLoop {
    const cfg: Config
    const results: array<NodeResult>
    var waiting: map<nat, int>
    var dependents: map<nat, seq<nat>>
    var ready: seq<nat>
    var free: int
    var running: int
    var failed: bool
    var inFlight: set<nat>  // the nodes whose goroutine has not yet been received from
    ghost var state: State

    /** The slots, the failures and the results are those of `t`. */
    ghost predicate Accounts(t: State)
      reads this`free, this`running, this`failed, this`inFlight, results
    {
      && inFlight == t.inFlight
      && failed == t.AnyFailed()
      && Recorded(cfg, t, results[..])
      && Slots(cfg, t, free, running)
    }

    /** The ready list and the waiting counts are those of `t`. */
    ghost predicate Lists(t: State)
      reads this`ready, this`waiting, this`dependents
    {
      ready == t.ready && Counters(cfg, t.completed.Keys, waiting, dependents)
    }

    /** The fields represent the queue state `state`. */
    ghost predicate Represents()
      reads this, results
    {
      Lists(state) && Accounts(state)
    }

    ghost predicate Valid()
      reads this, results
    {
      Inv(cfg, state) && Represents()
    }

    /** The counter of free slots is what the nodes in flight leave, each taken at its own weight or at the whole pool. */
    lemma FreeSlots()
      requires Valid()
      ensures free == cfg.slots - Occupied(cfg, inFlight, cfg.N()) && running == |inFlight|
    {
      LoadIsOccupied(cfg, inFlight, cfg.N());
    }

    /** Lines 40-65 of scheduler.go. */
    constructor (c: Config)
      requires c.Valid()
      ensures Valid() && fresh(results) && cfg == c && state == Start(c)
    {
      cfg := c;
      results := new NodeResult[|c.nodes|](_ => NodeResult(false, false, None));
      waiting := map[];
      dependents := map[];
      ready := [];
      free := c.slots;
      running := 0;
      failed := false;
      inFlight := {};
      state := Start(c);
      new;
      CountNeeds();
      StartRepresented(cfg, results[..]);
    }

    /** Lines 51-60: counts needs, lists dependents, collects and sorts the roots. */
    method CountNeeds()
      requires waiting == map[] && dependents == map[] && ready == []
      modifies `waiting, `dependents, `ready
      ensures Counters(cfg, {}, waiting, dependents)
      ensures ready == StableSort(cfg.Rank, Roots(cfg, cfg.N()))
    {
      EnterAll();
      WiredAll(cfg, cfg.N(), waiting, dependents);
      SortByRank();
    }

    method EnterAll()
      requires waiting == map[] && dependents == map[] && ready == []
      modifies `waiting, `dependents, `ready
      ensures WiredUpTo(cfg, cfg.N(), waiting, dependents) && ready == Roots(cfg, cfg.N())
    {
      var index: nat := 0;
      WiredNone(cfg);
      while index < |cfg.nodes|
        invariant index <= cfg.N() && EnteredUpTo(index)
      {
        Enter(index);
        index := index + 1;
      }
      assert index == cfg.N();
    }

    ghost predicate EnteredUpTo(n: nat)
      reads this
    {
      n <= cfg.N() && WiredUpTo(cfg, n, waiting, dependents) && ready == Roots(cfg, n)
    }

    /** Lines 52-58 for one node. */
    method Enter(index: nat)
      requires index < cfg.N() && EnteredUpTo(index)
      modifies `waiting, `dependents, `ready
      ensures EnteredUpTo(index + 1)
    {
      ghost var w, before := waiting, dependents;
      Wire(index);
      WiredUpToStep(cfg, index, w, before, dependents);
      if |cfg.nodes[index].needs| == 0 {
        ready := ready + [index];
      }
    }

    /** Lines 52-55 for one node. */
    method Wire(index: nat)
      requires index < cfg.N()
      modifies `waiting, `dependents
      ensures waiting == old(waiting)[index := |cfg.nodes[index].needs|]
      ensures Wired(old(dependents), dependents, cfg.nodes[index].needs, index)
    {
      var needs: seq<nat> := cfg.nodes[index].needs;
      waiting := waiting[index := |needs|];
      var k := 0;
      while k < |needs|
        invariant k <= |needs| && waiting == old(waiting)[index := |needs|]
        invariant Wired(old(dependents), dependents, needs[..k], index)
      {
        WiredStep(old(dependents), dependents, needs[..k], needs[k], index);
        assert needs[..k + 1] == needs[..k] + [needs[k]];
        dependents := dependents[needs[k] := Entry(dependents, needs[k]) + [index]];
        k := k + 1;
      }
      assert needs[..|needs|] == needs;
    }

    /** The in-place stable sort of the ready list by descending rank. */
    method SortByRank()
      modifies this`ready
      ensures StablyRanked(cfg.Rank, old(ready), ready)
      ensures ready == StableSort(cfg.Rank, old(ready))
    {
      var i := 0;
      while i < |ready|
        invariant i <= |ready|
        invariant SortedPrefix(cfg.Rank, old(ready), ready, i)
      {
        SortedPrefixStep(cfg.Rank, old(ready), ready, i);
        MoveUp(i);
        i := i + 1;
      }
      assert ready[..i] == ready && old(ready)[..i] == old(ready);
      StableSortUnique(cfg.Rank, old(ready), ready);
    }

    /** Swaps element `i` forward past every element it outranks. */
    method MoveUp(i: nat)
      requires i < |ready|
      modifies this`ready
      ensures |ready| == |old(ready)|
      ensures ready[..i + 1] == Insert(cfg.Rank, old(ready)[..i], old(ready)[i])
      ensures ready[i + 1..] == old(ready)[i + 1..]
    {
      var j: nat := i;
      while j > 0 && cfg.Rank(ready[j]) > cfg.Rank(ready[j - 1])
        invariant j <= i < |ready|
        invariant MovedUp(cfg.Rank, old(ready), ready, i, j)
        decreases j
      {
        MovedUpStep(cfg.Rank, old(ready), ready, i, j);
        SwapForward(j);
        j := j - 1;
      }
      MovedUpDone(cfg.Rank, old(ready), ready, i, j);
    }

    method SwapForward(j: nat)
      requires 0 < j < |ready|
      modifies this`ready
      ensures ready == old(ready)[j := old(ready)[j - 1]][j - 1 := old(ready)[j]]
    {
      ready := ready[j := ready[j - 1]][j - 1 := ready[j]];
    }

    /** The `dispatch` closure (scheduler.go:67-92); `ctxErr` is whether ctx.Err() is set. */
    method DispatchPass(ctxErr: bool)
      requires Valid()
      modifies this, results
      ensures Valid() && state == Dispatch(cfg, old(state), ctxErr)
    {
      if (failed && cfg.failFast) || ctxErr {
        return;
      }
      var position: nat := 0;
      while position < |ready|
        invariant Passing(position, old(state))
        decreases |ready| - position
      {
        position := PassOn(position, old(state));
      }
      PassEnd(cfg, state);
    }

    /** The pass that began in state `s` has come to `position`: nothing ahead of it fits. */
    ghost predicate Passing(position: nat, s: State)
      reads this, results
    {
      && Valid() && position <= |ready|
      && (forall q | 0 <= q < position :: !Fits(cfg, state, q))
      && Greedy(cfg, state) == Greedy(cfg, s)
    }

    method PassOn(position: nat, ghost s: State) returns (next: nat)
      requires Passing(position, s) && position < |ready|
      modifies this, results
      ensures Passing(next, s) && |ready| - next < old(|ready|) - position
    {
      ghost var before := state;
      var launched := TryLaunch(position);
      if launched {
        PassStep(cfg, before, position);
        next := position;
      } else {
        next := position + 1;
      }
    }

    /** Lines 74-90: starts the node at `position` if it fits the free slots. */
    method TryLaunch(position: nat) returns (launched: bool)
      requires Valid() && position < |ready|
      modifies this, results
      ensures Valid() && launched == Fits(cfg, old(state), position)
      ensures state == if launched then Launch(old(state), position) else old(state)
      ensures old(ready[position]) < cfg.N()
      ensures var weight := cfg.nodes[old(ready[position])].weight;
              && (launched <==> weight <= old(free) || old(free) == cfg.slots)
              && free == old(free) - (if !launched then 0 else if weight <= cfg.slots then weight else cfg.slots)
    {
      assert state.Released(ready[position]);
      var weight := cfg.nodes[ready[position]].weight;
      if weight > cfg.slots {
        weight := cfg.slots;
      }
      launched := weight <= free;
      if launched {
        ghost var t := LaunchRepresented(cfg, state, position, free, running, results[..]);
        LaunchAt(position, weight, t);
      }
    }

    /** Lines 83-90: takes a node off the ready list, charges its slots and starts it. */
    method LaunchAt(position: nat, weight: nat, ghost t: State)
      requires Represents() && position < |ready| && ready[position] < cfg.N()
      requires t == Launch(state, position) && Slots(cfg, t, free - weight, running + 1)
      requires Recorded(cfg, t, results[..][ready[position] := results[ready[position]].(dispatched := true)])
      modifies this, results
      ensures Represents() && state == t && free == old(free) - weight
    {
      var index := ready[position];
      ready := ready[..position] + ready[position + 1..];
      free := free - weight;
      running := running + 1;
      results[index] := results[index].(dispatched := true);
      inFlight := inFlight + {index};
      state := t;
    }

    /** Lines 96-118: the completion of `done` returns its slots and releases its dependents. */
    method Receive(done: nat, nodeFailed: bool, err: Option<string>)
      requires Valid() && done in inFlight
      modifies this, results
      ensures Valid() && state == Complete(cfg, old(state), done, Outcome(nodeFailed, err))
    {
      ghost var t := CompleteRepresented(cfg, state, done, Outcome(nodeFailed, err), free, running, results[..]);
      Retire(done, nodeFailed, err, t);
    }

    method Retire(done: nat, nodeFailed: bool, err: Option<string>, ghost t: State)
      requires Represents() && done < cfg.N() && done !in state.completed && Ranked(cfg.Rank, ready)
      requires Retires(cfg, state, done, Outcome(nodeFailed, err), free, running, results[..], t)
      modifies this, results
      ensures Represents() && state == t
    {
      Account(done, nodeFailed, err, t);
      Settle(done, state, t);
      state := t;
    }

    /** Lines 97-107. */
    method Account(done: nat, nodeFailed: bool, err: Option<string>, ghost t: State)
      requires done < cfg.N() && done < results.Length
      requires t.inFlight == inFlight - {done} && t.AnyFailed() == (failed || nodeFailed)
      requires Slots(cfg, t, free + cfg.Cap(done), running - 1)
      requires Recorded(cfg, t, results[..][done := results[done].(failed := nodeFailed, err := err)])
      modifies this`running, this`free, this`inFlight, this`failed, results
      ensures Accounts(t)
    {
      ReturnSlots(done);
      Record(done, nodeFailed, err);
    }

    /** Lines 103-107. */
    method Record(done: nat, nodeFailed: bool, err: Option<string>)
      requires done < results.Length
      modifies results, `failed
      ensures results[..] == old(results[..])[done := old(results[done]).(failed := nodeFailed, err := err)]
      ensures failed == (old(failed) || nodeFailed)
    {
      results[done] := results[done].(failed := nodeFailed, err := err);
      if nodeFailed {
        failed := true;
      }
    }

    /** Lines 97-102. */
    method ReturnSlots(done: nat)
      requires done < cfg.N()
      modifies `running, `free, `inFlight
      ensures running == old(running) - 1 && free == old(free) + cfg.Cap(done) && inFlight == old(inFlight) - {done}
      ensures free == old(free) + (if cfg.nodes[done].weight <= cfg.slots then cfg.nodes[done].weight else cfg.slots)
    {
      running := running - 1;
      var weight := cfg.nodes[done].weight;
      if weight > cfg.slots {
        weight := cfg.slots;
      }
      free := free + weight;
      inFlight := inFlight - {done};
    }

    /** Lines 108-118: releases the dependents of `done` and restores the rank order if there were any. */
    method Settle(done: nat, ghost s: State, ghost t: State)
      requires Lists(s) && done !in s.completed && Ranked(cfg.Rank, ready)
      requires t.completed.Keys == s.completed.Keys + {done}
      requires t.ready == StableSort(cfg.Rank, s.ready + NewlyReady(cfg, s.completed.Keys + {done}, done, cfg.N()))
      modifies `waiting, `ready
      ensures Lists(t)
    {
      var newlyReady := Release(done, s.completed.Keys);
      if newlyReady {
        SortByRank();
      } else {
        SortIdle(cfg, ready);
      }
    }

    /** Lines 108-115: decrements every dependent's counter and collects those that reach zero. */
    method Release(done: nat, ghost before: set<nat>) returns (newlyReady: bool)
      requires Counters(cfg, before, waiting, dependents) && done !in before
      modifies `waiting, `ready
      ensures Counters(cfg, before + {done}, waiting, dependents)
      ensures ready == old(ready) + NewlyReady(cfg, before + {done}, done, cfg.N())
      ensures newlyReady <==> |ready| != |old(ready)|
    {
      newlyReady := false;
      var ds, k := Entry(dependents, done), 0;
      while k < |ds|
        invariant k <= |ds| && Releasing(before, ds[..k], old(ready))
        invariant newlyReady <==> |ready| != |old(ready)|
      {
        DependentInRange(cfg, done, k);
        var reached := PayOff(before, ds, k, old(ready));
        newlyReady := newlyReady || reached;
        k := k + 1;
      }
      assert ds[..k] == ds;
      ReachedIsNewlyReady(cfg, before, done, cfg.N());
      DrainedAll(cfg, before, done, waiting);
    }

    /** The listings in `ds` have been paid off, and the ready list was `front` before. */
    ghost predicate Releasing(before: set<nat>, ds: seq<nat>, front: seq<nat>)
      reads this
    {
      Drained(cfg, before, waiting, ds) && ready == front + ReachedZero(cfg, before, ds)
    }

    /** Lines 109-114 for one dependent. */
    method PayOff(ghost before: set<nat>, ds: seq<nat>, k: nat, ghost front: seq<nat>) returns (reached: bool)
      requires k < |ds| && ds[k] < cfg.N() && Releasing(before, ds[..k], front)
      modifies `waiting, `ready
      ensures Releasing(before, ds[..k + 1], front)
      ensures |ready| == |old(ready)| + (if reached then 1 else 0)
    {
      var dependent := ds[k];
      DrainedStep(cfg, before, waiting, ds, k, front);
      waiting := waiting[dependent := waiting[dependent] - 1];
      reached := waiting[dependent] == 0;
      if reached {
        ready := ready + [dependent];
      }
    }
  }

  // ---- the whole function ----

  lemma {:induction false} BoundedSet(n: nat, s: set<nat>)
    requires forall i: nat | i in s :: i < n
    ensures |s| <= n
  {
    if n == 0 {
      assert s == {};
    } else {
      BoundedSet(n - 1, s - {n - 1});
    }
  }

  lemma CompletedBounded(cfg: Config, s: State)
    requires Inv(cfg, s)
    ensures |s.completed.Keys| <= cfg.N()
    ensures s.inFlight != {} ==> |s.completed.Keys| < cfg.N()
  {
    forall i: nat | i in s.Dispatched() ensures i < cfg.N() {
      assert s.Released(i);
    }
    BoundedSet(cfg.N(), s.Dispatched());
    assert |s.Dispatched()| == |s.inFlight| + |s.completed.Keys|;
  }

  /** Lines 44-46: at least one slot. */
  function Clamped(nodes: seq<Node>, slots: int, failFast: bool): (cfg: Config)
    ensures cfg.nodes == nodes && cfg.failFast == failFast
    ensures cfg.slots >= 1 && cfg.slots >= slots && (cfg.slots == slots || (slots < 1 && cfg.slots == 1))
  {
    Config(nodes, if slots < 1 then 1 else slots, failFast)
  }

  /** Once a pass has seen ctx.Err() set, every later pass does. */
  ghost predicate Sticky(ctxErr: bool, run: seq<Choice>) {
    forall b | 0 <= b < |run| :: (ctxErr || exists a | 0 <= a < b :: run[a].ctxErr) ==> run[b].ctxErr
  }

  lemma StickyAppend(ctxErr: bool, run: seq<Choice>, c: Choice)
    requires Sticky(ctxErr, run)
    requires (if run == [] then ctxErr else run[|run| - 1].ctxErr) ==> c.ctxErr
    requires ctxErr && run != [] ==> run[|run| - 1].ctxErr
    ensures Sticky(ctxErr, run + [c])
  {
    var longer := run + [c];
    forall b | 0 <= b < |longer| && (ctxErr || exists a | 0 <= a < b :: longer[a].ctxErr)
      ensures longer[b].ctxErr
    {
      if b == |run| && run != [] && !ctxErr {
        var a :| 0 <= a < b && longer[a].ctxErr;
        assert run[a].ctxErr;
        if a < |run| - 1 { assert exists a' | 0 <= a' < |run| - 1 :: run[a'].ctxErr; }
      } else if b < |run| && !ctxErr {
        var a :| 0 <= a < b && longer[a].ctxErr;
        assert run[a].ctxErr;
      }
    }
  }

  lemma RunExtended(cfg: Config, ctxErr: bool, run: seq<Choice>, c: Choice)
    requires cfg.Valid() && Legal(cfg, ctxErr, run) && c.index in After(cfg, ctxErr, run).inFlight
    ensures Legal(cfg, ctxErr, run + [c])
    ensures After(cfg, ctxErr, run + [c]) ==
            Dispatch(cfg, Complete(cfg, After(cfg, ctxErr, run), c.index, c.outcome), c.ctxErr)
  {
    assert (run + [c])[..|run|] == run;
  }

  lemma StepCompletes(cfg: Config, s: State, i: nat, o: Outcome, ctxErr: bool)
    requires Inv(cfg, s) && i in s.inFlight
    ensures |Dispatch(cfg, Complete(cfg, s, i, o), ctxErr).completed.Keys| == |s.completed.Keys| + 1
  {
    CompleteInv(cfg, s, i, o);
    GreedyInv(cfg, Complete(cfg, s, i, o));
    assert Complete(cfg, s, i, o).completed.Keys == s.completed.Keys + {i};
  }

  /** The channel receive and the context: any node in flight may be next, with any outcome. */
  method Environment(inFlight: set<nat>) returns (done: nat, failed: bool, err: Option<string>, cancel: bool)
    requires inFlight != {}
    ensures done in inFlight
  {
    done :| done in inFlight;
    failed := *;
    err := *;
    cancel := *;
  }

  /** What the last pass read from the context. */
  function LastCtxErr(ctxErr: bool, run: seq<Choice>): bool {
    if run == [] then ctxErr else run[|run| - 1].ctxErr
  }

  /** `run` leads to state `s`, and its latest pass saw ctx.Err() as `cancelled` says. */
  ghost predicate Traced(cfg: Config, s: State, cancelled: bool, ctxErr: bool, run: seq<Choice>)
    requires cfg.Valid()
  {
    && Legal(cfg, ctxErr, run) && After(cfg, ctxErr, run) == s
    && Sticky(ctxErr, run) && (ctxErr ==> cancelled)
    && cancelled == LastCtxErr(ctxErr, run)
  }

  lemma TracedStep(cfg: Config, s: State, before: bool, ctxErr: bool, run: seq<Choice>, c: Choice)
    requires cfg.Valid() && Traced(cfg, s, before, ctxErr, run) && c.index in s.inFlight && (before ==> c.ctxErr)
    ensures Traced(cfg, Dispatch(cfg, Complete(cfg, s, c.index, c.outcome), c.ctxErr), c.ctxErr, ctxErr, run + [c])
  {
    RunExtended(cfg, ctxErr, run, c);
    StickyAppend(ctxErr, run, c);
  }

  /** One turn of the loop: a receive and a pass (lines 95-120). */
  method Turn(queue: QueueLoop, before: bool, ghost ctxErr: bool, ghost run: seq<Choice>) returns (cancelled: bool, ghost longer: seq<Choice>)
    requires queue.Valid() && queue.running > 0 && Traced(queue.cfg, queue.state, before, ctxErr, run)
    modifies queue, queue.results
    ensures queue.Valid() && Traced(queue.cfg, queue.state, cancelled, ctxErr, longer)
    ensures |old(queue.state).completed.Keys| < |queue.state.completed.Keys| <= queue.cfg.N()
  {
    var done, nodeFailed, err, cancelNow := Environment(queue.inFlight);
    cancelled := before || cancelNow;
    ghost var choice := Choice(done, Outcome(nodeFailed, err), cancelled);
    TracedStep(queue.cfg, queue.state, before, ctxErr, run, choice);
    longer := run + [choice];
    StepCompletes(queue.cfg, queue.state, done, Outcome(nodeFailed, err), cancelled);
    queue.Receive(done, nodeFailed, err);
    queue.DispatchPass(cancelled);
    CompletedBounded(queue.cfg, queue.state);
  }

  /** The results are those of a legal run under a sticky context, at the end of which nothing is in flight. */
  ghost predicate ResultsOfRun(cfg: Config, results: seq<NodeResult>)
    requires cfg.Valid()
  {
    exists ctxErr: bool, run: seq<Choice> :: EndsWith(cfg, ctxErr, run, results)
  }

  ghost predicate EndsWith(cfg: Config, ctxErr: bool, run: seq<Choice>, results: seq<NodeResult>)
    requires cfg.Valid()
  {
    && Sticky(ctxErr, run) && Legal(cfg, ctxErr, run)
    && After(cfg, ctxErr, run).inFlight == {} && Recorded(cfg, After(cfg, ctxErr, run), results)
  }

  /** A dispatched node's needs were all dispatched, and one that was not dispatched has no failure and no error. */
  ghost predicate ResultsFollowNeeds(cfg: Config, results: seq<NodeResult>) {
    && |results| == cfg.N()
    && (forall i: nat, need: nat | i < cfg.N() && need in cfg.nodes[i].needs && results[i].dispatched ::
          need < cfg.N() && results[need].dispatched)
    && (forall i: nat | i < cfg.N() && !results[i].dispatched :: !results[i].failed && results[i].err == None)
  }

  lemma RunFollowsNeeds(cfg: Config, s: State, results: seq<NodeResult>)
    requires Inv(cfg, s) && s.inFlight == {} && Recorded(cfg, s, results)
    ensures ResultsFollowNeeds(cfg, results)
  {
    forall i: nat, need: nat | i < cfg.N() && need in cfg.nodes[i].needs && results[i].dispatched
      ensures need < cfg.N() && results[need].dispatched
    {
      assert s.Released(i) && cfg.NeedsMet(s.completed.Keys, i);
      assert need in s.completed;
    }
  }

  /**
   `runQueue` terminates and its results are those of a legal run, in which every node that was
   dispatched has completed. The order and outcome of completions and the moment ctx.Err() becomes
   set are the environment's.
   */
  method RunQueue(nodes: seq<Node>, slots: int, failFast: bool) returns (results: seq<NodeResult>)
    requires Clamped(nodes, slots, failFast).Valid()
    ensures ResultsOfRun(Clamped(nodes, slots, failFast), results)
    ensures ResultsFollowNeeds(Clamped(nodes, slots, failFast), results)
  {
    var cfg := Clamped(nodes, slots, failFast);
    var cancelled: bool := *;
    ghost var ctxErr, run: seq<Choice> := cancelled, [];
    var queue := new QueueLoop(cfg);
    queue.DispatchPass(cancelled);
    while queue.running > 0
      invariant queue.cfg == cfg && queue.Valid() && fresh(queue) && fresh(queue.results)
      invariant Traced(cfg, queue.state, cancelled, ctxErr, run)
      decreases cfg.N() - |queue.state.completed.Keys|
    {
      cancelled, run := Turn(queue, cancelled, ctxErr, run);
    }
    results := queue.results[..];
    assert EndsWith(cfg, ctxErr, run, results);
    RunFollowsNeeds(cfg, queue.state, results);
  }
}
