/**
 How long a run takes. Backfilling (scheduler.go:71-91) is list scheduling: in a timed model with
 whole job durations and dispatch at no cost, a node only ever waits while the pool is too full for
 it, which bounds the length of the whole run in the manner of Graham.
 */
module Makespan {
  import opened Model
  import opened Queue
  import opened Scheduling
  import opened Completeness

  /** The queue, the time, and the start time of each dispatched node. */
  datatype Timed = Timed(queue: State, now: nat, start: map<nat, nat>)

  predicate Durations(cfg: Config, dur: seq<nat>) {
    |dur| == cfg.N() && forall i | 0 <= i < |dur| :: dur[i] >= 1
  }

  function Finish(dur: seq<nat>, start: map<nat, nat>, i: nat): nat
    requires i in start && i < |dur|
  {
    start[i] + dur[i]
  }

  /** Whether node `i` occupies its slots during the time unit that begins at `t`. */
  predicate Running(dur: seq<nat>, start: map<nat, nat>, i: nat, t: nat) {
    i in start && i < |dur| && start[i] <= t < start[i] + dur[i]
  }

  /** Slots in use during time unit `t` by the first `n` nodes. */
  function Busy(cfg: Config, dur: seq<nat>, start: map<nat, nat>, n: nat, t: nat): nat {
    if n == 0 then 0
    else Busy(cfg, dur, start, n - 1, t) + (if Running(dur, start, n - 1, t) then cfg.Cap(n - 1) else 0)
  }

  /** The first pass, at time 0. */
  function Begin(cfg: Config): Timed {
    var q := Greedy(cfg, Start(cfg));
    Timed(q, 0, map i | i in q.Dispatched() :: 0)
  }

  /** The clock moves to the completion of `c.index`; the pass that follows launches at that time. */
  function Advance(cfg: Config, dur: seq<nat>, ts: Timed, c: Choice): Timed
    requires c.index in ts.start && c.index < |dur|
  {
    var now := Finish(dur, ts.start, c.index);
    var q := Greedy(cfg, Complete(cfg, ts.queue, c.index, c.outcome));
    Timed(q, now, map i | i in q.Dispatched() :: if i in ts.start then ts.start[i] else now)
  }

  /** All needs of `j` have completed by time `t`. */
  predicate ReleasedBy(cfg: Config, dur: seq<nat>, start: map<nat, nat>, j: nat, t: nat)
    requires j < cfg.N()
  {
    forall need | need in cfg.nodes[j].needs :: need in start && need < |dur| && start[need] + dur[need] <= t
  }

  /** The end of the wait of `j` as far as it is known. */
  function Until(ts: Timed, j: nat): nat { if j in ts.start then ts.start[j] else ts.now }

  /** While `j` waits for slots, the slots in use leave too few for it. */
  predicate WaitsForSlots(cfg: Config, dur: seq<nat>, ts: Timed, j: nat, t: nat) {
    j < cfg.N() && ReleasedBy(cfg, dur, ts.start, j, t) && t < Until(ts, j) ==>
      Busy(cfg, dur, ts.start, cfg.N(), t) + cfg.Cap(j) > cfg.slots
  }

  ghost predicate Clocked(cfg: Config, dur: seq<nat>, ts: Timed) {
    && ts.start.Keys == ts.queue.Dispatched()
    && (forall i: nat | i in ts.queue.inFlight :: i in ts.start && i < |dur| && ts.start[i] <= ts.now <= Finish(dur, ts.start, i))
    && (forall i: nat | i in ts.queue.completed :: i in ts.start && i < |dur| && Finish(dur, ts.start, i) <= ts.now)
  }

  /** No node starts before its needs have completed. */
  ghost predicate StartsAfterNeeds(cfg: Config, dur: seq<nat>, ts: Timed) {
    forall i: nat | i in ts.start :: i < cfg.N() && ReleasedBy(cfg, dur, ts.start, i, ts.start[i])
  }

  ghost predicate TimedInv(cfg: Config, dur: seq<nat>, ts: Timed) {
    && Inv(cfg, ts.queue) && NothingFits(cfg, ts.queue) && Durations(cfg, dur)
    && Clocked(cfg, dur, ts)
    && StartsAfterNeeds(cfg, dur, ts)
    && forall j: nat, t: nat | ts.queue.Released(j) :: WaitsForSlots(cfg, dur, ts, j, t)
  }

  // ---- the clock keeps the invariant ----

  lemma BeginInv(cfg: Config, dur: seq<nat>)
    requires cfg.Valid() && Durations(cfg, dur)
    ensures TimedInv(cfg, dur, Begin(cfg))
  {
    StartInv(cfg);
    GreedyInv(cfg, Start(cfg));
    var ts := Begin(cfg);
    forall i: nat | i in ts.start ensures i < cfg.N() && ReleasedBy(cfg, dur, ts.start, i, ts.start[i]) {
      assert ts.queue.Released(i);
    }
  }

  /** Between two completions the slots in use are the load in flight. */
  lemma {:induction false} BusyIsLoad(cfg: Config, dur: seq<nat>, ts: Timed, n: nat, t: nat)
    requires Clocked(cfg, dur, ts) && n <= cfg.N() && ts.now <= t
    requires forall i: nat | i in ts.queue.inFlight :: t < Finish(dur, ts.start, i)
    ensures Busy(cfg, dur, ts.start, n, t) == Load(cfg, n, ts.queue.inFlight)
  {
    if n > 0 {
      BusyIsLoad(cfg, dur, ts, n - 1, t);
      assert n - 1 in ts.start <==> n - 1 in ts.queue.inFlight || n - 1 in ts.queue.completed;
    }
  }

  /** Launches at time `now` or later do not change the past. */
  lemma {:induction false} BusyPast(cfg: Config, dur: seq<nat>, start: map<nat, nat>, later: map<nat, nat>, n: nat, t: nat)
    requires forall i: nat | i in start :: i in later && later[i] == start[i]
    requires forall i: nat | i in later && i !in start :: later[i] > t
    ensures Busy(cfg, dur, later, n, t) == Busy(cfg, dur, start, n, t)
  {
    if n > 0 { BusyPast(cfg, dur, start, later, n - 1, t); }
  }

  /** `c` completes a node in flight that finishes no later than any other. */
  ghost predicate Earliest(dur: seq<nat>, ts: Timed, c: Choice) {
    && c.index in ts.queue.inFlight && c.index in ts.start && c.index < |dur|
    && forall j: nat | j in ts.queue.inFlight && j in ts.start && j < |dur| ::
         Finish(dur, ts.start, c.index) <= Finish(dur, ts.start, j)
  }

  /** How the queue and the start times change over one completion. */
  lemma AdvanceShape(cfg: Config, dur: seq<nat>, ts: Timed, c: Choice)
    requires TimedInv(cfg, dur, ts) && Earliest(dur, ts, c)
    ensures var u := Advance(cfg, dur, ts, c);
            && Inv(cfg, u.queue) && NothingFits(cfg, u.queue)
            && u.now == Finish(dur, ts.start, c.index) >= ts.now
            && u.queue.completed.Keys == ts.queue.completed.Keys + {c.index}
            && u.start.Keys == u.queue.Dispatched()
            && (forall i: nat | i in ts.start :: i in u.start && u.start[i] == ts.start[i])
            && (forall i: nat | i in u.start && i !in ts.start :: u.start[i] == u.now && i in u.queue.inFlight)
            && (forall j: nat | u.queue.Released(j) && !ts.queue.Released(j) :: j < cfg.N() && c.index in cfg.nodes[j].needs)
  {
    var m := Complete(cfg, ts.queue, c.index, c.outcome);
    CompleteInv(cfg, ts.queue, c.index, c.outcome);
    GreedyInv(cfg, m);
    assert m.completed.Keys == ts.queue.completed.Keys + {c.index};
    var u := Advance(cfg, dur, ts, c);
    forall j: nat | u.queue.Released(j) && !ts.queue.Released(j)
      ensures j < cfg.N() && c.index in cfg.nodes[j].needs
    {
      assert m.Released(j);
      assert cfg.NeedsMet(m.completed.Keys, j) && !cfg.NeedsMet(ts.queue.completed.Keys, j);
    }
  }

  lemma AdvanceClocked(cfg: Config, dur: seq<nat>, ts: Timed, c: Choice)
    requires TimedInv(cfg, dur, ts) && Earliest(dur, ts, c)
    ensures Clocked(cfg, dur, Advance(cfg, dur, ts, c))
  {
    AdvanceShape(cfg, dur, ts, c);
    var u := Advance(cfg, dur, ts, c);
    forall i: nat | i in u.queue.inFlight
      ensures i in u.start && i < |dur| && u.start[i] <= u.now <= Finish(dur, u.start, i)
    {
      assert u.queue.Released(i);
      if i in ts.start { assert i in ts.queue.inFlight; }
    }
  }

  lemma AdvanceStartsAfterNeeds(cfg: Config, dur: seq<nat>, ts: Timed, c: Choice)
    requires TimedInv(cfg, dur, ts) && Earliest(dur, ts, c)
    ensures StartsAfterNeeds(cfg, dur, Advance(cfg, dur, ts, c))
  {
    AdvanceShape(cfg, dur, ts, c);
    AdvanceClocked(cfg, dur, ts, c);
    var u := Advance(cfg, dur, ts, c);
    forall i: nat | i in u.start
      ensures i < cfg.N() && ReleasedBy(cfg, dur, u.start, i, u.start[i])
    {
      assert u.queue.Released(i);
      if i in ts.start {
        assert ReleasedBy(cfg, dur, ts.start, i, ts.start[i]);
      } else {
        assert cfg.NeedsMet(u.queue.completed.Keys, i);
      }
    }
  }

  lemma AdvanceWaits(cfg: Config, dur: seq<nat>, ts: Timed, c: Choice, j: nat, t: nat)
    requires TimedInv(cfg, dur, ts) && Earliest(dur, ts, c)
    requires Advance(cfg, dur, ts, c).queue.Released(j)
    ensures WaitsForSlots(cfg, dur, Advance(cfg, dur, ts, c), j, t)
  {
    AdvanceShape(cfg, dur, ts, c);
    var u := Advance(cfg, dur, ts, c);
    if j < cfg.N() && ReleasedBy(cfg, dur, u.start, j, t) && t < Until(u, j) {
      assert t < u.now || j in ts.start;
      assert c.index in cfg.nodes[j].needs ==> u.now <= t;
      assert ts.queue.Released(j);
      assert t < u.now;
      BusyPast(cfg, dur, ts.start, u.start, cfg.N(), t);
      forall need | need in cfg.nodes[j].needs
        ensures need in ts.start && need < |dur| && ts.start[need] + dur[need] <= t
      {
        assert need in ts.queue.completed.Keys;
      }
      assert ReleasedBy(cfg, dur, ts.start, j, t);
      assert WaitsForSlots(cfg, dur, ts, j, t);
      if t >= Until(ts, j) {
        assert j in ts.queue.ready;
        var p :| 0 <= p < |ts.queue.ready| && ts.queue.ready[p] == j;
        assert !Fits(cfg, ts.queue, p);
        BusyIsLoad(cfg, dur, ts, cfg.N(), t);
      }
    }
  }

  lemma AdvanceInv(cfg: Config, dur: seq<nat>, ts: Timed, c: Choice)
    requires TimedInv(cfg, dur, ts) && Earliest(dur, ts, c)
    ensures TimedInv(cfg, dur, Advance(cfg, dur, ts, c))
  {
    AdvanceShape(cfg, dur, ts, c);
    AdvanceClocked(cfg, dur, ts, c);
    AdvanceStartsAfterNeeds(cfg, dur, ts, c);
    forall j: nat, t: nat | Advance(cfg, dur, ts, c).queue.Released(j)
      ensures WaitsForSlots(cfg, dur, Advance(cfg, dur, ts, c), j, t)
    {
      AdvanceWaits(cfg, dur, ts, c, j, t);
    }
  }

  // ---- timed runs ----

  /** No pass of the run is stopped, and completions arrive in the order of their finish times. */
  ghost predicate OnTime(cfg: Config, dur: seq<nat>, run: seq<Choice>)
    requires cfg.Valid() && Durations(cfg, dur)
    decreases |run|, 0
  {
    run == [] ||
    var before, last := run[..|run| - 1], run[|run| - 1];
    && OnTime(cfg, dur, before)
    && Earliest(dur, At(cfg, dur, before), last)
    && !last.ctxErr && !(last.outcome.failed && cfg.failFast)
  }

  ghost function At(cfg: Config, dur: seq<nat>, run: seq<Choice>): (ts: Timed)
    requires cfg.Valid() && Durations(cfg, dur) && OnTime(cfg, dur, run)
    ensures TimedInv(cfg, dur, ts)
    decreases |run|, 1
  {
    if run == [] then
      BeginInv(cfg, dur);
      Begin(cfg)
    else
      var ts := At(cfg, dur, run[..|run| - 1]);
      AdvanceInv(cfg, dur, ts, run[|run| - 1]);
      Advance(cfg, dur, ts, run[|run| - 1])
  }

  lemma UnstoppedPass(cfg: Config, s: State, c: Choice)
    requires Inv(cfg, s) && c.index in s.inFlight && !c.ctxErr
    requires cfg.failFast ==> !s.AnyFailed() && !c.outcome.failed
    ensures var q := Dispatch(cfg, Complete(cfg, s, c.index, c.outcome), c.ctxErr);
            q == Greedy(cfg, Complete(cfg, s, c.index, c.outcome)) && (cfg.failFast ==> !q.AnyFailed())
  {
    CompleteInv(cfg, s, c.index, c.outcome);
    GreedyInv(cfg, Complete(cfg, s, c.index, c.outcome));
  }

  /** A timed run is a run of the queue: the clock only adds times to it. */
  lemma {:induction false} TimedRunIsRun(cfg: Config, dur: seq<nat>, run: seq<Choice>)
    requires cfg.Valid() && Durations(cfg, dur) && OnTime(cfg, dur, run)
    ensures Legal(cfg, false, run) && After(cfg, false, run) == At(cfg, dur, run).queue
    ensures cfg.failFast ==> !After(cfg, false, run).AnyFailed()
    decreases |run|
  {
    if run == [] {
      StartInv(cfg);
      GreedyInv(cfg, Start(cfg));
    } else {
      var before, last := run[..|run| - 1], run[|run| - 1];
      TimedRunIsRun(cfg, dur, before);
      UnstoppedPass(cfg, At(cfg, dur, before).queue, last);
    }
  }

  // ---- slot-time used ----

  /** Slot-time used before time `t` by the first `n` nodes. */
  function Area(cfg: Config, dur: seq<nat>, start: map<nat, nat>, n: nat, t: nat): nat {
    if t == 0 then 0 else Area(cfg, dur, start, n, t - 1) + Busy(cfg, dur, start, n, t - 1)
  }

  /** The total weighted duration of the first `n` nodes. */
  function Work(cfg: Config, dur: seq<nat>, n: nat): nat
    requires n <= |dur|
  {
    if n == 0 then 0 else Work(cfg, dur, n - 1) + cfg.Cap(n - 1) * dur[n - 1]
  }

  function Elapsed(dur: seq<nat>, start: map<nat, nat>, i: nat, t: nat): nat
    requires i < |dur|
  {
    if i !in start || t <= start[i] then 0 else if t - start[i] < dur[i] then t - start[i] else dur[i]
  }

  lemma {:induction false} AreaNone(cfg: Config, dur: seq<nat>, start: map<nat, nat>, t: nat)
    ensures Area(cfg, dur, start, 0, t) == 0
  {
    if t > 0 { AreaNone(cfg, dur, start, t - 1); }
  }

  lemma ElapsedStep(dur: seq<nat>, start: map<nat, nat>, i: nat, t: nat)
    requires i < |dur|
    ensures Elapsed(dur, start, i, t + 1) == Elapsed(dur, start, i, t) + (if Running(dur, start, i, t) then 1 else 0)
  {
  }

  lemma MulStep(k: nat, a: nat)
    ensures k * (a + 1) == k * a + k
  {
  }

  /** Summing over time first or over nodes first gives the same. */
  lemma {:induction false} AreaSplit(cfg: Config, dur: seq<nat>, start: map<nat, nat>, n: nat, t: nat)
    requires n < |dur|
    ensures Area(cfg, dur, start, n + 1, t) == Area(cfg, dur, start, n, t) + cfg.Cap(n) * Elapsed(dur, start, n, t)
  {
    if t > 0 {
      AreaSplit(cfg, dur, start, n, t - 1);
      ElapsedStep(dur, start, n, t - 1);
      MulStep(cfg.Cap(n), Elapsed(dur, start, n, t - 1));
    }
  }

  lemma {:induction false} AreaAtMostWork(cfg: Config, dur: seq<nat>, start: map<nat, nat>, n: nat, t: nat)
    requires n <= |dur|
    ensures Area(cfg, dur, start, n, t) <= Work(cfg, dur, n)
  {
    if n == 0 {
      AreaNone(cfg, dur, start, t);
    } else {
      AreaAtMostWork(cfg, dur, start, n - 1, t);
      AreaSplit(cfg, dur, start, n - 1, t);
      MulMono(cfg.Cap(n - 1), Elapsed(dur, start, n - 1, t), dur[n - 1]);
    }
  }

  lemma MulMono(k: nat, a: nat, b: nat)
    requires a <= b
    ensures k * a <= k * b
  {}

  /** A stretch of time in which at least `k` slots are in use adds `k` per time unit. */
  lemma {:induction false} AreaStretch(cfg: Config, dur: seq<nat>, start: map<nat, nat>, k: nat, r: nat, s: nat)
    requires r <= s
    requires forall t: nat | r <= t < s :: Busy(cfg, dur, start, cfg.N(), t) >= k
    ensures Area(cfg, dur, start, cfg.N(), s) >= Area(cfg, dur, start, cfg.N(), r) + k * (s - r)
    decreases s
  {
    if r < s {
      AreaStretch(cfg, dur, start, k, r, s - 1);
      assert k * (s - r) == k * (s - 1 - r) + k;
    }
  }

  // ---- the critical chain ----

  function Duration(dur: seq<nat>, p: seq<nat>): nat
    requires forall k | 0 <= k < |p| :: p[k] < |dur|
  {
    if p == [] then 0 else dur[p[0]] + Duration(dur, p[1..])
  }

  lemma {:induction false} LatestNeed(dur: seq<nat>, start: map<nat, nat>, needs: seq<nat>) returns (latest: nat)
    requires needs != [] && forall need | need in needs :: need in start && need < |dur|
    ensures latest in needs
    ensures forall need | need in needs :: Finish(dur, start, need) <= Finish(dur, start, latest)
  {
    var init, last := needs[..|needs| - 1], needs[|needs| - 1];
    assert needs == init + [last];
    if init == [] {
      latest := last;
    } else {
      latest := LatestNeed(dur, start, init);
      if Finish(dur, start, latest) < Finish(dur, start, last) {
        latest := last;
      }
    }
  }

  /** From its release to its start a node only waits while at least `slots - widest + 1` slots are in use. */
  lemma WaitIsBusy(cfg: Config, dur: seq<nat>, ts: Timed, widest: nat, j: nat, r: nat)
    requires TimedInv(cfg, dur, ts) && j in ts.start && j < cfg.N()
    requires widest <= cfg.slots && cfg.Cap(j) <= widest
    requires r <= ts.start[j] && ReleasedBy(cfg, dur, ts.start, j, r)
    ensures Area(cfg, dur, ts.start, cfg.N(), ts.start[j]) >=
            Area(cfg, dur, ts.start, cfg.N(), r) + (cfg.slots - widest + 1) * (ts.start[j] - r)
  {
    forall t: nat | r <= t < ts.start[j]
      ensures Busy(cfg, dur, ts.start, cfg.N(), t) >= cfg.slots - widest + 1
    {
      assert ts.queue.Released(j);
      assert WaitsForSlots(cfg, dur, ts, j, t);
    }
    AreaStretch(cfg, dur, ts.start, cfg.slots - widest + 1, r, ts.start[j]);
  }

  lemma ChainGrows(cfg: Config, j: nat, q: seq<nat>)
    requires j < cfg.N() && Chain(cfg, q) && q[0] in cfg.nodes[j].needs
    ensures Chain(cfg, [j] + q) && ([j] + q)[1..] == q
  {
    var p := [j] + q;
    assert p[1..] == q && forall m | 0 < m < |p| :: p[m] == q[m - 1];
  }

  /** A node without needs. */
  lemma RootStep(cfg: Config, dur: seq<nat>, ts: Timed, widest: nat, j: nat)
    requires TimedInv(cfg, dur, ts) && j in ts.start && j < cfg.N() && cfg.nodes[j].needs == []
    requires widest <= cfg.slots && forall i: nat | i < cfg.N() :: cfg.Cap(i) <= widest
    ensures j < |dur| && Chain(cfg, [j]) && Duration(dur, [j]) == dur[j]
    ensures (cfg.slots - widest + 1) * Finish(dur, ts.start, j) <=
            (cfg.slots - widest + 1) * dur[j] + Area(cfg, dur, ts.start, cfg.N(), ts.start[j])
  {
    WaitIsBusy(cfg, dur, ts, widest, j, 0);
    assert Duration(dur, [j]) == dur[j] + Duration(dur, []);
    Distribute(cfg.slots - widest + 1, 0, ts.start[j], dur[j], 0);
  }

  /** A node that starts after its latest need, which ends the chain `q`. */
  lemma ChainStep(cfg: Config, dur: seq<nat>, ts: Timed, widest: nat, j: nat, need: nat, q: nat)
    requires TimedInv(cfg, dur, ts) && j in ts.start && j < cfg.N() && need in ts.start && need < cfg.N()
    requires widest <= cfg.slots && forall i: nat | i < cfg.N() :: cfg.Cap(i) <= widest
    requires Finish(dur, ts.start, need) <= ts.start[j] && ReleasedBy(cfg, dur, ts.start, j, Finish(dur, ts.start, need))
    requires (cfg.slots - widest + 1) * Finish(dur, ts.start, need) <=
             (cfg.slots - widest + 1) * q + Area(cfg, dur, ts.start, cfg.N(), ts.start[need])
    ensures (cfg.slots - widest + 1) * Finish(dur, ts.start, j) <=
            (cfg.slots - widest + 1) * (dur[j] + q) + Area(cfg, dur, ts.start, cfg.N(), ts.start[j])
  {
    var r := Finish(dur, ts.start, need);
    WaitIsBusy(cfg, dur, ts, widest, j, r);
    AreaStretch(cfg, dur, ts.start, 0, ts.start[need], r);
    Distribute(cfg.slots - widest + 1, r, ts.start[j], dur[j], q);
  }

  /** Up to its finish, the time of a node is either spent on one chain of needs or used by busy slots. */
  lemma {:induction false} CriticalChain(cfg: Config, dur: seq<nat>, ts: Timed, widest: nat, j: nat)
    returns (p: seq<nat>)
    requires TimedInv(cfg, dur, ts) && j in ts.start && j < cfg.N()
    requires widest <= cfg.slots && forall i: nat | i < cfg.N() :: cfg.Cap(i) <= widest
    ensures Chain(cfg, p) && p[0] == j
    ensures (cfg.slots - widest + 1) * Finish(dur, ts.start, j) <=
            (cfg.slots - widest + 1) * Duration(dur, p) + Area(cfg, dur, ts.start, cfg.N(), ts.start[j])
    decreases ts.start[j]
  {
    var needs := cfg.nodes[j].needs;
    assert ReleasedBy(cfg, dur, ts.start, j, ts.start[j]);
    if needs == [] {
      p := [j];
      RootStep(cfg, dur, ts, widest, j);
    } else {
      var need := LatestNeed(dur, ts.start, needs);
      var q := CriticalChain(cfg, dur, ts, widest, need);
      p := [j] + q;
      ChainGrows(cfg, j, q);
      ChainStep(cfg, dur, ts, widest, j, need, Duration(dur, q));
    }
  }

  lemma Distribute(k: nat, r: nat, s: nat, d: nat, q: nat)
    requires r <= s
    ensures k * (s + d) == k * r + k * (s - r) + k * d
    ensures k * (d + q) == k * d + k * q
  {}

  lemma FinishBound(cfg: Config, dur: seq<nat>, ts: Timed, widest: nat, longest: nat, j: nat)
    requires TimedInv(cfg, dur, ts) && j in ts.start && j < cfg.N()
    requires widest <= cfg.slots && forall i: nat | i < cfg.N() :: cfg.Cap(i) <= widest
    requires forall p | Chain(cfg, p) :: Duration(dur, p) <= longest
    ensures (cfg.slots - widest + 1) * Finish(dur, ts.start, j) <=
            Work(cfg, dur, cfg.N()) + (cfg.slots - widest + 1) * longest
  {
    var p := CriticalChain(cfg, dur, ts, widest, j);
    AreaAtMostWork(cfg, dur, ts.start, cfg.N(), ts.start[j]);
    MulMono(cfg.slots - widest + 1, Duration(dur, p), longest);
  }

  lemma EndsWithLast(cfg: Config, dur: seq<nat>, run: seq<Choice>)
    requires cfg.Valid() && Durations(cfg, dur) && OnTime(cfg, dur, run) && run != []
    ensures var ts, last := At(cfg, dur, run), run[|run| - 1].index;
            last < cfg.N() && last in ts.start && ts.now == Finish(dur, ts.start, last)
  {
    AdvanceShape(cfg, dur, At(cfg, dur, run[..|run| - 1]), run[|run| - 1]);
    assert At(cfg, dur, run).queue.Released(run[|run| - 1].index);
  }

  /**
   The makespan bound. Let no capped weight exceed `widest` and no chain of needs last longer than
   `longest`. Then a run that ends at time T satisfies
   (slots - widest + 1) * T <= total work + (slots - widest + 1) * longest.
   */
  lemma MakespanBound(cfg: Config, dur: seq<nat>, run: seq<Choice>, widest: nat, longest: nat)
    requires cfg.Valid() && Durations(cfg, dur) && OnTime(cfg, dur, run)
    requires widest <= cfg.slots && forall i: nat | i < cfg.N() :: cfg.Cap(i) <= widest
    requires forall p | Chain(cfg, p) :: Duration(dur, p) <= longest
    ensures (cfg.slots - widest + 1) * At(cfg, dur, run).now <=
            Work(cfg, dur, cfg.N()) + (cfg.slots - widest + 1) * longest
  {
    if run == [] {
      MulMono(cfg.slots - widest + 1, 0, longest);
    } else {
      EndsWithLast(cfg, dur, run);
      FinishBound(cfg, dur, At(cfg, dur, run), widest, longest, run[|run| - 1].index);
    }
  }
}
