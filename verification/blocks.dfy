/**
 Dependency blocking (engine.go:650-677): pending jobs that need a job which cannot run are blocked,
 by a change-until-stable loop over a map whose iteration order is arbitrary.
 */
module Blocks {
  import opened Model

  /** Job `d` exists, job `i` needs it, and it is not pending. */
  predicate BlocksOn(jobs: seq<Job>, i: nat, d: nat) {
    i < |jobs| && d < |jobs| && jobs[d].id in jobs[i].needs && jobs[d].status != StatusPending
  }

  /** No pending job needs a job that is not pending. */
  ghost predicate Stable(jobs: seq<Job>) {
    forall i: nat, d: nat | BlocksOn(jobs, i, d) :: jobs[i].status != StatusPending
  }

  function BlockedBy(job: Job, dep: Job): Job {
    job.(status := StatusBlocked,
         fidelity := dep.fidelity,
         reason := "dependency " + dep.id + " is " + StatusText(dep.status))
  }

  /** A chain of needs through pending jobs that ends at a job that is not pending. */
  ghost predicate DoomChain(jobs: seq<Job>, p: seq<nat>) {
    && p != [] && (forall k | 0 <= k < |p| :: p[k] < |jobs|)
    && jobs[p[|p| - 1]].status != StatusPending
    && forall k | 0 <= k < |p| - 1 :: jobs[p[k]].status == StatusPending && jobs[p[k + 1]].id in jobs[p[k]].needs
  }

  /** A job that is not pending can be reached from `i` through needs. */
  ghost predicate Doomed(jobs: seq<Job>, i: nat) {
    exists p :: DoomChain(jobs, p) && p[0] == i
  }

  /** A chain from `i` to an originally non-pending job of this fidelity. */
  ghost predicate Traced(jobs: seq<Job>, i: nat, fidelity: Fidelity) {
    exists p :: DoomChain(jobs, p) && p[0] == i && jobs[p[|p| - 1]].fidelity == fidelity
  }

  /** Job `i` was pending and is now blocked on a job it needs that is not pending, in name and in fact. */
  ghost predicate Explained(jobs0: seq<Job>, jobs: seq<Job>, i: nat)
    requires i < |jobs| == |jobs0|
  {
    && jobs0[i].status == StatusPending
    && Traced(jobs0, i, jobs[i].fidelity)
    && exists d: nat | BlocksOn(jobs, i, d) :: jobs[i] == BlockedBy(jobs0[i], jobs[d])
  }

  ghost predicate BlocksSoFar(jobs0: seq<Job>, jobs: seq<Job>) {
    |jobs| == |jobs0| && forall i: nat | i < |jobs| :: jobs[i] == jobs0[i] || Explained(jobs0, jobs, i)
  }

  /** The outcome: exactly the pending jobs that reach a non-pending one are blocked, each for a true reason. */
  ghost predicate Blocks(jobs0: seq<Job>, jobs: seq<Job>) {
    && BlocksSoFar(jobs0, jobs)
    && Stable(jobs)
    && forall i: nat | i < |jobs0| ::
         jobs[i].status == (if jobs0[i].status == StatusPending && Doomed(jobs0, i) then StatusBlocked else jobs0[i].status)
  }

  function PendingCount(jobs: seq<Job>): nat {
    if jobs == [] then 0
    else PendingCount(jobs[..|jobs| - 1]) + (if jobs[|jobs| - 1].status == StatusPending then 1 else 0)
  }

  // ---- one blocking ----

  lemma ChainThrough(jobs0: seq<Job>, i: nat, q: seq<nat>)
    requires DoomChain(jobs0, q) && i < |jobs0|
    requires jobs0[i].status == StatusPending && jobs0[q[0]].id in jobs0[i].needs
    ensures Traced(jobs0, i, jobs0[q[|q| - 1]].fidelity)
  {
    var p := [i] + q;
    forall k | 0 <= k < |p| - 1
      ensures jobs0[p[k]].status == StatusPending && jobs0[p[k + 1]].id in jobs0[p[k]].needs
    {
      if k > 0 { assert p[k] == q[k - 1] && p[k + 1] == q[k - 1 + 1]; }
    }
    assert DoomChain(jobs0, p) && p[0] == i && p[|p| - 1] == q[|q| - 1];
  }

  lemma SameShape(jobs0: seq<Job>, jobs: seq<Job>, i: nat)
    requires BlocksSoFar(jobs0, jobs) && i < |jobs|
    ensures jobs[i].id == jobs0[i].id && jobs[i].needs == jobs0[i].needs
    ensures jobs[i].status == StatusPending ==> jobs[i] == jobs0[i]
  {}

  lemma BlockTraced(jobs0: seq<Job>, jobs: seq<Job>, i: nat, d: nat)
    requires BlocksSoFar(jobs0, jobs) && BlocksOn(jobs, i, d) && jobs[i].status == StatusPending
    ensures jobs0[i].status == StatusPending && Traced(jobs0, i, jobs[d].fidelity)
  {
    SameShape(jobs0, jobs, i);
    SameShape(jobs0, jobs, d);
    if jobs[d] == jobs0[d] {
      assert DoomChain(jobs0, [d]);
      ChainThrough(jobs0, i, [d]);
    } else {
      var q :| DoomChain(jobs0, q) && q[0] == d && jobs0[q[|q| - 1]].fidelity == jobs[d].fidelity;
      ChainThrough(jobs0, i, q);
    }
  }

  lemma BlockStep(jobs0: seq<Job>, jobs: seq<Job>, i: nat, d: nat)
    requires BlocksSoFar(jobs0, jobs) && BlocksOn(jobs, i, d) && jobs[i].status == StatusPending
    ensures BlocksSoFar(jobs0, jobs[i := BlockedBy(jobs[i], jobs[d])])
  {
    BlockTraced(jobs0, jobs, i, d);
    SameShape(jobs0, jobs, i);
    var next := jobs[i := BlockedBy(jobs[i], jobs[d])];
    forall j: nat | j < |next| ensures next[j] == jobs0[j] || Explained(jobs0, next, j) {
      if j == i {
        assert BlocksOn(next, i, d) && next[i] == BlockedBy(jobs0[i], next[d]);
      } else if jobs[j] != jobs0[j] {
        var e: nat :| BlocksOn(jobs, j, e) && jobs[j] == BlockedBy(jobs0[j], jobs[e]);
        assert BlocksOn(next, j, e) && next[e] == jobs[e];
      }
    }
  }

  lemma {:induction false} PendingDrops(jobs: seq<Job>, i: nat, job: Job)
    requires i < |jobs| && jobs[i].status == StatusPending && job.status != StatusPending
    ensures PendingCount(jobs[i := job]) == PendingCount(jobs) - 1
  {
    var last := |jobs| - 1;
    if i < last {
      assert jobs[i := job][..last] == jobs[..last][i := job];
      PendingDrops(jobs[..last], i, job);
    } else {
      assert jobs[i := job][..last] == jobs[..last];
    }
  }

  // ---- stability is completeness ----

  lemma {:induction false} ChainBlocked(jobs0: seq<Job>, jobs: seq<Job>, p: seq<nat>)
    requires BlocksSoFar(jobs0, jobs) && Stable(jobs) && DoomChain(jobs0, p)
    ensures jobs[p[0]].status != StatusPending
    decreases |p|
  {
    SameShape(jobs0, jobs, p[0]);
    if |p| > 1 {
      var q := p[1..];
      assert forall k | 0 <= k < |q| :: q[k] == p[k + 1];
      assert forall k {:trigger q[k + 1]} | 0 <= k < |q| - 1 :: q[k + 1] == p[k + 1 + 1];
      ChainBlocked(jobs0, jobs, q);
      SameShape(jobs0, jobs, p[1]);
      assert jobs0[p[0 + 1]].id in jobs0[p[0]].needs;
      assert BlocksOn(jobs, p[0], p[1]);
    }
  }

  lemma StableBlocks(jobs0: seq<Job>, jobs: seq<Job>)
    requires BlocksSoFar(jobs0, jobs) && Stable(jobs)
    ensures Blocks(jobs0, jobs)
  {
    forall i: nat | i < |jobs0|
      ensures jobs[i].status == (if jobs0[i].status == StatusPending && Doomed(jobs0, i) then StatusBlocked else jobs0[i].status)
    {
      if jobs[i] == jobs0[i] {
        if Doomed(jobs0, i) {
          var p :| DoomChain(jobs0, p) && p[0] == i;
          ChainBlocked(jobs0, jobs, p);
        }
      } else {
        assert Traced(jobs0, i, jobs[i].fidelity);
        assert Doomed(jobs0, i);
      }
    }
  }

  /** The entry of job `i` says that it is blocked by job `d`. */
  ghost predicate SaysBlockedBy(jobs0: seq<Job>, jobs: seq<Job>, i: nat, d: nat)
    requires i < |jobs| == |jobs0| && d < |jobs|
  {
    && jobs[d].id in jobs0[i].needs && jobs[d].status != StatusPending
    && jobs[i] == jobs0[i].(status := StatusBlocked, fidelity := jobs[d].fidelity,
                            reason := "dependency " + jobs[d].id + " is " + StatusText(jobs[d].status))
  }

  /**
   Every job after blocking: one that was pending and reaches a job that is not is blocked, and names a
   needed job and how that one stands; its fidelity is that of a job at the end of a chain of needs. Any
   other job is as it was.
   */
  lemma EveryJobAfterBlocking(jobs0: seq<Job>, jobs: seq<Job>, i: nat)
    requires Blocks(jobs0, jobs) && i < |jobs0|
    ensures |jobs| == |jobs0|
    ensures jobs0[i].status == StatusPending && Doomed(jobs0, i) ==>
              && (exists d: nat | d < |jobs| :: SaysBlockedBy(jobs0, jobs, i, d))
              && (exists p | DoomChain(jobs0, p) && p[0] == i :: jobs[i].fidelity == jobs0[p[|p| - 1]].fidelity)
    ensures jobs0[i].status != StatusPending || !Doomed(jobs0, i) ==> jobs[i] == jobs0[i]
  {
    if jobs[i] != jobs0[i] {
      var d: nat :| BlocksOn(jobs, i, d) && jobs[i] == BlockedBy(jobs0[i], jobs[d]);
      assert SaysBlockedBy(jobs0, jobs, i, d);
    }
  }

  // ---- the loop ----

  ghost predicate Indexed(jobs: seq<Job>, byID: map<string, nat>) {
    && (forall i | 0 <= i < |jobs| :: jobs[i].id in byID)
    && (forall id | id in byID :: byID[id] < |jobs| && jobs[byID[id]].id == id)
  }

  lemma KeepsIDs(jobs0: seq<Job>, jobs: seq<Job>, byID: map<string, nat>)
    requires BlocksSoFar(jobs0, jobs)
    ensures DistinctIDs(jobs0) <==> DistinctIDs(jobs)
    ensures Indexed(jobs0, byID) <==> Indexed(jobs, byID)
  {
    forall i: nat | i < |jobs| ensures jobs[i].id == jobs0[i].id {
      SameShape(jobs0, jobs, i);
    }
  }

  /** Only jobs still to be visited may need a job that is not pending. */
  ghost predicate StableExcept(jobs: seq<Job>, todo: set<string>) {
    forall i: nat, d: nat | BlocksOn(jobs, i, d) && jobs[i].id !in todo :: jobs[i].status != StatusPending
  }

  /** Lines 652-656. */
  method IndexJobs(jobs: array<Job>) returns (byID: map<string, nat>)
    ensures Indexed(jobs[..], byID)
  {
    byID := map[];
    for i := 0 to jobs.Length
      invariant forall k | 0 <= k < i :: jobs[k].id in byID
      invariant forall id | id in byID :: byID[id] < jobs.Length && jobs[byID[id]].id == id
    {
      byID := byID[jobs[i].id := i];
    }
  }

  lemma FoundBefore(jobs: seq<Job>, byID: map<string, nat>, i: nat, k: nat)
    requires DistinctIDs(jobs) && Indexed(jobs, byID) && i < |jobs| && k <= |jobs[i].needs|
    requires forall m | 0 <= m < k :: jobs[i].needs[m] !in byID || jobs[byID[jobs[i].needs[m]]].status == StatusPending
    ensures forall e: nat | e < |jobs| && jobs[e].id in jobs[i].needs[..k] :: jobs[e].status == StatusPending
  {
    forall e: nat | e < |jobs| && jobs[e].id in jobs[i].needs[..k] ensures jobs[e].status == StatusPending {
      var m :| 0 <= m < k && jobs[i].needs[m] == jobs[e].id;
    }
  }

  /** Entry `k` of the needs of job `i` is job `d`, the first of them that is not pending. */
  ghost predicate FirstBlocker(jobs: seq<Job>, i: nat, d: nat, k: nat) {
    && BlocksOn(jobs, i, d) && k < |jobs[i].needs| && jobs[i].needs[k] == jobs[d].id
    && forall e: nat | e < |jobs| && jobs[e].id in jobs[i].needs[..k] :: jobs[e].status == StatusPending
  }

  /** What blocking job `i` on entry `k` of its needs does. */
  lemma BlockFound(jobs0: seq<Job>, jobs: seq<Job>, byID: map<string, nat>, i: nat, k: nat)
    requires DistinctIDs(jobs) && Indexed(jobs, byID) && BlocksSoFar(jobs0, jobs)
    requires i < |jobs| && jobs[i].status == StatusPending && k < |jobs[i].needs|
    requires jobs[i].needs[k] in byID && jobs[byID[jobs[i].needs[k]]].status != StatusPending
    requires forall m | 0 <= m < k :: jobs[i].needs[m] !in byID || jobs[byID[jobs[i].needs[m]]].status == StatusPending
    ensures var d := byID[jobs[i].needs[k]];
            && FirstBlocker(jobs, i, d, k)
            && BlocksSoFar(jobs0, jobs[i := BlockedBy(jobs[i], jobs[d])])
            && PendingCount(jobs[i := BlockedBy(jobs[i], jobs[d])]) == PendingCount(jobs) - 1
  {
    var d := byID[jobs[i].needs[k]];
    FoundBefore(jobs, byID, i, k);
    assert BlocksOn(jobs, i, d);
    BlockStep(jobs0, jobs, i, d);
    PendingDrops(jobs, i, BlockedBy(jobs[i], jobs[d]));
  }

  /** Lines 664-673 for one pending job. */
  method TryBlock(jobs: array<Job>, byID: map<string, nat>, i: nat, ghost jobs0: seq<Job>) returns (blocked: bool)
    requires i < jobs.Length && jobs[i].status == StatusPending
    requires DistinctIDs(jobs0) && Indexed(jobs0, byID) && BlocksSoFar(jobs0, jobs[..])
    modifies jobs
    ensures BlocksSoFar(jobs0, jobs[..])
    ensures !blocked ==> jobs[..] == old(jobs[..]) && forall d: nat :: !BlocksOn(jobs[..], i, d)
    ensures blocked ==>
              exists d: nat, k: nat | FirstBlocker(old(jobs[..]), i, d, k) ::
                jobs[..] == old(jobs[..])[i := BlockedBy(old(jobs[i]), old(jobs[..])[d])]
    ensures blocked ==> PendingCount(jobs[..]) == PendingCount(old(jobs[..])) - 1
  {
    KeepsIDs(jobs0, jobs[..], byID);
    var needs, k := jobs[i].needs, 0;
    while k < |needs|
      invariant k <= |needs| && jobs[..] == old(jobs[..])
      invariant forall m | 0 <= m < k :: needs[m] !in byID || jobs[byID[needs[m]]].status == StatusPending
    {
      if needs[k] in byID {
        var d := byID[needs[k]];
        if jobs[d].status != StatusPending {
          BlockFound(jobs0, jobs[..], byID, i, k);
          jobs[i] := jobs[i].(status := StatusBlocked,
                              fidelity := jobs[d].fidelity,
                              reason := "dependency " + needs[k] + " is " + StatusText(jobs[d].status));
          assert jobs[..] == old(jobs[..])[i := BlockedBy(old(jobs[i]), old(jobs[d]))];
          return true;
        }
      }
      k := k + 1;
    }
    blocked := false;
  }

  /** A pass that found the jobs as `start` has them has yet to visit `todo`. */
  ghost predicate Passing(jobs0: seq<Job>, start: seq<Job>, jobs: seq<Job>, todo: set<string>, changed: bool) {
    && BlocksSoFar(jobs0, jobs)
    && (if changed then PendingCount(jobs) < PendingCount(start) else jobs == start && StableExcept(jobs, todo))
  }

  /** Lines 660-674 for one job. */
  method Visit(jobs: array<Job>, byID: map<string, nat>, id: string, before: bool,
               ghost jobs0: seq<Job>, ghost start: seq<Job>, ghost todo: set<string>)
    returns (changed: bool)
    requires DistinctIDs(jobs0) && Indexed(jobs0, byID) && id in byID && Passing(jobs0, start, jobs[..], todo, before)
    modifies jobs
    ensures Passing(jobs0, start, jobs[..], todo - {id}, changed)
  {
    changed := before;
    KeepsIDs(jobs0, jobs[..], byID);
    if jobs[byID[id]].status == StatusPending {
      var blocked := TryBlock(jobs, byID, byID[id], jobs0);
      changed := changed || blocked;
    }
  }

  /** Lines 660-675: one pass over the jobs, in any order. */
  method BlockPass(jobs: array<Job>, byID: map<string, nat>, ghost jobs0: seq<Job>) returns (changed: bool)
    requires DistinctIDs(jobs0) && Indexed(jobs0, byID) && BlocksSoFar(jobs0, jobs[..])
    modifies jobs
    ensures BlocksSoFar(jobs0, jobs[..])
    ensures !changed ==> Stable(jobs[..]) && jobs[..] == old(jobs[..])
    ensures changed ==> PendingCount(jobs[..]) < PendingCount(old(jobs[..]))
  {
    changed := false;
    var todo := byID.Keys;
    AllToDo(jobs0, jobs[..], byID);
    while todo != {}
      invariant Passing(jobs0, old(jobs[..]), jobs[..], todo, changed) && todo <= byID.Keys
      decreases |todo|
    {
      var id :| id in todo;
      changed := Visit(jobs, byID, id, changed, jobs0, old(jobs[..]), todo);
      todo := todo - {id};
    }
  }

  lemma AllToDo(jobs0: seq<Job>, jobs: seq<Job>, byID: map<string, nat>)
    requires Indexed(jobs0, byID) && BlocksSoFar(jobs0, jobs)
    ensures StableExcept(jobs, byID.Keys)
  {
    KeepsIDs(jobs0, jobs, byID);
  }

  /** One workflow: lines 652-675. */
  method MarkWorkflow(jobs: array<Job>)
    requires DistinctIDs(jobs[..])
    modifies jobs
    ensures Blocks(old(jobs[..]), jobs[..])
  {
    ghost var jobs0 := jobs[..];
    var byID := IndexJobs(jobs);
    var changed := true;
    while changed
      invariant BlocksSoFar(jobs0, jobs[..])
      invariant !changed ==> Stable(jobs[..])
      decreases PendingCount(jobs[..]), changed
    {
      changed := BlockPass(jobs, byID, jobs0);
    }
    StableBlocks(jobs0, jobs[..]);
  }

  /** All workflows; blocking never crosses from one to another. */
  method MarkDependencyBlocks(workflows: seq<array<Job>>)
    requires forall a, b | 0 <= a < b < |workflows| :: workflows[a] != workflows[b]
    requires forall a | 0 <= a < |workflows| :: DistinctIDs(workflows[a][..])
    modifies set a | 0 <= a < |workflows| :: workflows[a]
    ensures forall a | 0 <= a < |workflows| :: Blocks(old(workflows[a][..]), workflows[a][..])
  {
    for w := 0 to |workflows|
      invariant forall a | 0 <= a < w :: Blocks(old(workflows[a][..]), workflows[a][..])
      invariant forall a | w <= a < |workflows| :: workflows[a][..] == old(workflows[a][..])
    {
      MarkWorkflow(workflows[w]);
    }
  }
}
