/**
 The weighted-slot queue seen from outside (scheduler.go): which nodes are ready, which are in
 flight and which have completed. A node is ready once all its needs have completed; a dispatch
 pass repeatedly launches the first ready node that fits the free slots. Module `Scheduling`
 proves that the counting loops of `runQueue` do exactly this.
 */
module Queue {
  import opened Model
  import opened Ranking

  /** One schedulable job. `needs` indexes other nodes and may repeat. */
  datatype Node = Node(workflowIndex: nat, jobID: string, rank: real, weight: nat, needs: seq<nat>)

  datatype Outcome = Outcome(failed: bool, err: Option<string>)

  datatype NodeResult = NodeResult(dispatched: bool, failed: bool, err: Option<string>)

  datatype Config = Config(nodes: seq<Node>, slots: nat, failFast: bool) {
    predicate Valid() {
      && slots >= 1
      && forall i, need | 0 <= i < |nodes| && need in nodes[i].needs :: need < |nodes|
    }

    function N(): nat { |nodes| }

    function Rank(i: nat): (r: real)
      ensures i < |nodes| ==> r == nodes[i].rank
    {
      if i < |nodes| then nodes[i].rank else 0.0
    }

    /** The slots a node occupies: its weight, capped at the pool size. */
    function Cap(i: nat): (c: nat)
      ensures c <= slots
      ensures i < |nodes| ==> c <= nodes[i].weight && (c == nodes[i].weight || c == slots)
    {
      if i >= |nodes| then 0 else if nodes[i].weight > slots then slots else nodes[i].weight
    }

    predicate NeedsMet(done: set<nat>, i: nat)
      requires i < |nodes|
    {
      forall need | need in nodes[i].needs :: need in done
    }
  }

  datatype State = State(ready: seq<nat>, inFlight: set<nat>, completed: map<nat, Outcome>) {
    function Dispatched(): set<nat> { inFlight + completed.Keys }

    predicate Released(i: nat) { i in ready || i in inFlight || i in completed }

    predicate AnyFailed() { exists i | i in completed :: completed[i].failed }

    function ResultOf(i: nat): NodeResult {
      if i in completed then NodeResult(true, completed[i].failed, completed[i].err)
      else NodeResult(i in inFlight, false, None)
    }
  }

  /** The slots occupied by those of the first `n` nodes that are in `s`. */
  function Load(cfg: Config, n: nat, s: set<nat>): nat {
    if n == 0 then 0 else Load(cfg, n - 1, s) + (if n - 1 in s then cfg.Cap(n - 1) else 0)
  }

  /** The weights of those of the first `n` nodes that are in `s`; a node wider than the pool takes all of it. */
  function Occupied(cfg: Config, s: set<nat>, n: nat): nat
    requires n <= |cfg.nodes|
  {
    if n == 0 then 0
    else
      Occupied(cfg, s, n - 1) +
      (if n - 1 !in s then 0 else if cfg.nodes[n - 1].weight <= cfg.slots then cfg.nodes[n - 1].weight else cfg.slots)
  }

  lemma {:induction false} LoadIsOccupied(cfg: Config, s: set<nat>, n: nat)
    requires n <= cfg.N()
    ensures Load(cfg, n, s) == Occupied(cfg, s, n)
  {
    if n > 0 { LoadIsOccupied(cfg, s, n - 1); }
  }

  function Free(cfg: Config, s: State): int { cfg.slots - Load(cfg, cfg.N(), s.inFlight) }

  /** The ready list holds each node once, in rank order, and shares none with the other two parts. */
  ghost predicate ReadyInv(cfg: Config, s: State) {
    && Ranked(cfg.Rank, s.ready)
    && s.inFlight !! s.completed.Keys
    && forall i: nat | i in s.ready :: i !in s.inFlight && i !in s.completed && multiset(s.ready)[i] == 1
  }

  /** Exactly the nodes whose needs have all completed are ready, in flight or completed. */
  ghost predicate ReleaseInv(cfg: Config, s: State) {
    forall i: nat :: s.Released(i) <==> i < cfg.N() && cfg.NeedsMet(s.completed.Keys, i)
  }

  /** What every reachable queue state satisfies. */
  ghost predicate Inv(cfg: Config, s: State) {
    cfg.Valid() && ReadyInv(cfg, s) && ReleaseInv(cfg, s) && Free(cfg, s) >= 0
  }

  predicate Fits(cfg: Config, s: State, p: nat)
    requires p < |s.ready|
  {
    cfg.Cap(s.ready[p]) <= Free(cfg, s)
  }

  ghost predicate NothingFits(cfg: Config, s: State) {
    forall p | 0 <= p < |s.ready| :: !Fits(cfg, s, p)
  }

  /** The first position at or after `from` whose node fits, or the length of the list. */
  function FirstFit(cfg: Config, s: State, from: nat): (p: nat)
    requires from <= |s.ready|
    ensures from <= p <= |s.ready|
    ensures forall q | from <= q < p :: !Fits(cfg, s, q)
    ensures p < |s.ready| ==> Fits(cfg, s, p)
    decreases |s.ready| - from
  {
    if from == |s.ready| || Fits(cfg, s, from) then from else FirstFit(cfg, s, from + 1)
  }

  function Launch(s: State, p: nat): State
    requires p < |s.ready|
  {
    s.(ready := s.ready[..p] + s.ready[p + 1..], inFlight := s.inFlight + {s.ready[p]})
  }

  /** The specification of a dispatch pass: launch the first ready node that fits until none does. */
  function Greedy(cfg: Config, s: State): State
    decreases |s.ready|
  {
    var p := FirstFit(cfg, s, 0);
    if p == |s.ready| then s else Greedy(cfg, Launch(s, p))
  }

  predicate Stopped(cfg: Config, s: State, ctxErr: bool) {
    (s.AnyFailed() && cfg.failFast) || ctxErr
  }

  function Dispatch(cfg: Config, s: State, ctxErr: bool): State {
    if Stopped(cfg, s, ctxErr) then s else Greedy(cfg, s)
  }

  /** The nodes below `n` that the completion of `last` releases, in index order. */
  function NewlyReady(cfg: Config, done: set<nat>, last: nat, n: nat): seq<nat>
    requires n <= cfg.N()
  {
    if n == 0 then []
    else
      var init := NewlyReady(cfg, done, last, n - 1);
      if last in cfg.nodes[n - 1].needs && cfg.NeedsMet(done, n - 1) then init + [n - 1] else init
  }

  function Complete(cfg: Config, s: State, i: nat, o: Outcome): State {
    var completed := s.completed[i := o];
    State(StableSort(cfg.Rank, s.ready + NewlyReady(cfg, completed.Keys, i, cfg.N())), s.inFlight - {i}, completed)
  }

  /** The nodes below `n` without needs, in index order. */
  function Roots(cfg: Config, n: nat): seq<nat>
    requires n <= cfg.N()
  {
    if n == 0 then []
    else if cfg.nodes[n - 1].needs == [] then Roots(cfg, n - 1) + [n - 1]
    else Roots(cfg, n - 1)
  }

  function Start(cfg: Config): State {
    State(StableSort(cfg.Rank, Roots(cfg, cfg.N())), {}, map[])
  }

  lemma {:induction false} NewlyReadyMembers(cfg: Config, done: set<nat>, last: nat, n: nat)
    requires n <= cfg.N()
    ensures forall i: nat :: i in NewlyReady(cfg, done, last, n) <==>
                             i < n && last in cfg.nodes[i].needs && cfg.NeedsMet(done, i)
    ensures forall i: nat | i in NewlyReady(cfg, done, last, n) :: multiset(NewlyReady(cfg, done, last, n))[i] == 1
  {
    if n > 0 { NewlyReadyMembers(cfg, done, last, n - 1); }
  }

  lemma {:induction false} RootsMembers(cfg: Config, n: nat)
    requires n <= cfg.N()
    ensures forall i: nat :: i in Roots(cfg, n) <==> i < n && cfg.nodes[i].needs == []
    ensures forall i: nat | i in Roots(cfg, n) :: multiset(Roots(cfg, n))[i] == 1
  {
    if n > 0 { RootsMembers(cfg, n - 1); }
  }

  // ---- slot accounting ----

  lemma {:induction false} LoadAdd(cfg: Config, n: nat, s: set<nat>, i: nat)
    requires i !in s
    ensures Load(cfg, n, s + {i}) == Load(cfg, n, s) + (if i < n then cfg.Cap(i) else 0)
  {
    if n > 0 { LoadAdd(cfg, n - 1, s, i); }
  }

  lemma {:induction false} LoadEmpty(cfg: Config, n: nat)
    ensures Load(cfg, n, {}) == 0
  {
    if n > 0 { LoadEmpty(cfg, n - 1); }
  }

  lemma LoadRemove(cfg: Config, n: nat, s: set<nat>, i: nat)
    requires i in s
    ensures Load(cfg, n, s) == Load(cfg, n, s - {i}) + (if i < n then cfg.Cap(i) else 0)
  {
    LoadAdd(cfg, n, s - {i}, i);
    assert s - {i} + {i} == s;
  }

  // ---- every step keeps the invariant ----

  lemma SortedMembers(cfg: Config, s: seq<nat>)
    ensures forall i: nat :: i in StableSort(cfg.Rank, s) <==> i in s
    ensures multiset(StableSort(cfg.Rank, s)) == multiset(s)
    ensures Ranked(cfg.Rank, StableSort(cfg.Rank, s))
  {
    StableSortIsStablyRanked(cfg.Rank, s);
    var t := StableSort(cfg.Rank, s);
    forall i: nat ensures i in t <==> i in s {
      assert i in multiset(t) <==> i in multiset(s);
    }
  }

  lemma StartInv(cfg: Config)
    requires cfg.Valid()
    ensures Inv(cfg, Start(cfg))
  {
    RootsMembers(cfg, cfg.N());
    SortedMembers(cfg, Roots(cfg, cfg.N()));
    LoadEmpty(cfg, cfg.N());
    forall i: nat | i < cfg.N() ensures cfg.NeedsMet({}, i) <==> cfg.nodes[i].needs == [] {
      if cfg.nodes[i].needs != [] { assert cfg.nodes[i].needs[0] in cfg.nodes[i].needs; }
    }
  }

  lemma LaunchMembers(s: State, p: nat)
    requires p < |s.ready|
    ensures multiset(s.ready) == multiset(Launch(s, p).ready) + multiset{s.ready[p]}
    ensures forall i: nat :: i in s.ready <==> i in Launch(s, p).ready || i == s.ready[p]
  {
    var x, t := s.ready[p], Launch(s, p);
    assert s.ready == s.ready[..p] + [x] + s.ready[p + 1..];
    forall i: nat ensures i in s.ready <==> i in t.ready || i == x {
      assert i in multiset(s.ready) <==> i in multiset(t.ready) || i == x;
    }
  }

  /** A node that stays on the ready list is another one than the launched node, and is listed once. */
  lemma StillReady(s: State, p: nat, i: nat)
    requires p < |s.ready| && i in Launch(s, p).ready && i in s.ready && multiset(s.ready)[i] == 1
    requires multiset(s.ready) == multiset(Launch(s, p).ready) + multiset{s.ready[p]}
    ensures i != s.ready[p] && multiset(Launch(s, p).ready)[i] == 1
  {
    assert i in multiset(Launch(s, p).ready);
  }

  lemma LaunchReadyInv(cfg: Config, s: State, p: nat)
    requires ReadyInv(cfg, s) && p < |s.ready|
    ensures ReadyInv(cfg, Launch(s, p))
  {
    LaunchMembers(s, p);
    var x, t := s.ready[p], Launch(s, p);
    forall i: nat | i in t.ready ensures i !in t.inFlight && i !in t.completed && multiset(t.ready)[i] == 1 {
      StillReady(s, p, i);
    }
  }

  lemma LaunchInv(cfg: Config, s: State, p: nat)
    requires Inv(cfg, s) && p < |s.ready| && Fits(cfg, s, p)
    ensures Inv(cfg, Launch(s, p))
    ensures Free(cfg, Launch(s, p)) == Free(cfg, s) - cfg.Cap(s.ready[p])
    ensures forall i: nat :: Launch(s, p).Released(i) <==> s.Released(i)
  {
    LaunchMembers(s, p);
    LaunchReadyInv(cfg, s, p);
    assert s.Released(s.ready[p]);
    LoadAdd(cfg, cfg.N(), s.inFlight, s.ready[p]);
  }

  lemma {:induction false} GreedyInv(cfg: Config, s: State)
    requires Inv(cfg, s)
    ensures Inv(cfg, Greedy(cfg, s))
    ensures NothingFits(cfg, Greedy(cfg, s))
    ensures Greedy(cfg, s).completed == s.completed
    ensures s.inFlight <= Greedy(cfg, s).inFlight
    ensures forall i: nat :: Greedy(cfg, s).Released(i) <==> s.Released(i)
    decreases |s.ready|
  {
    var p := FirstFit(cfg, s, 0);
    if p < |s.ready| {
      LaunchInv(cfg, s, p);
      GreedyInv(cfg, Launch(s, p));
    }
  }

  lemma NewlyReadyFresh(cfg: Config, s: State, i: nat, j: nat)
    requires ReleaseInv(cfg, s) && i in s.inFlight && i !in s.completed
    requires j < cfg.N() && i in cfg.nodes[j].needs
    ensures !s.Released(j)
  {}

  lemma CompleteReadyInv(cfg: Config, s: State, i: nat, o: Outcome)
    requires ReadyInv(cfg, s) && ReleaseInv(cfg, s) && i in s.inFlight
    ensures ReadyInv(cfg, Complete(cfg, s, i, o))
  {
    var t := Complete(cfg, s, i, o);
    var newly: seq<nat> := NewlyReady(cfg, t.completed.Keys, i, cfg.N());
    NewlyReadyMembers(cfg, t.completed.Keys, i, cfg.N());
    SortedMembers(cfg, s.ready + newly);
    forall j: nat | j in t.ready ensures j !in t.inFlight && j !in t.completed && multiset(t.ready)[j] == 1 {
      assert multiset(s.ready + newly)[j] == multiset(s.ready)[j] + multiset(newly)[j];
      if j in newly { NewlyReadyFresh(cfg, s, i, j); }
    }
  }

  lemma CompleteReleaseInv(cfg: Config, s: State, i: nat, o: Outcome)
    requires ReadyInv(cfg, s) && ReleaseInv(cfg, s) && i in s.inFlight
    ensures ReleaseInv(cfg, Complete(cfg, s, i, o))
    ensures forall j: nat | s.Released(j) :: Complete(cfg, s, i, o).Released(j)
  {
    var t := Complete(cfg, s, i, o);
    var newly: seq<nat> := NewlyReady(cfg, t.completed.Keys, i, cfg.N());
    NewlyReadyMembers(cfg, t.completed.Keys, i, cfg.N());
    SortedMembers(cfg, s.ready + newly);
    assert t.completed.Keys == s.completed.Keys + {i};
    forall j: nat
      ensures t.Released(j) <==> j < cfg.N() && cfg.NeedsMet(t.completed.Keys, j)
      ensures s.Released(j) ==> t.Released(j)
    {
      assert t.Released(j) <==> s.Released(j) || j in newly;
      if j < cfg.N() && i !in cfg.nodes[j].needs {
        assert cfg.NeedsMet(t.completed.Keys, j) <==> cfg.NeedsMet(s.completed.Keys, j);
      }
    }
  }

  lemma CompleteInv(cfg: Config, s: State, i: nat, o: Outcome)
    requires Inv(cfg, s) && i in s.inFlight
    ensures Inv(cfg, Complete(cfg, s, i, o))
    ensures Free(cfg, Complete(cfg, s, i, o)) == Free(cfg, s) + cfg.Cap(i)
    ensures forall j: nat | s.Released(j) :: Complete(cfg, s, i, o).Released(j)
  {
    CompleteReadyInv(cfg, s, i, o);
    CompleteReleaseInv(cfg, s, i, o);
    assert s.Released(i);
    LoadRemove(cfg, cfg.N(), s.inFlight, i);
  }
}
