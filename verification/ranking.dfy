/** The queue's order: a stable sort by descending rank (scheduler.go, sortByRank). */
module Ranking {

  /** No element is outranked by a later one. */
  predicate Ranked(rank: nat -> real, s: seq<nat>) {
    forall a, b | 0 <= a < b < |s| :: rank(s[a]) >= rank(s[b])
  }

  /** The elements of `s` whose rank is exactly `r`, in the order of `s`. */
  function WithRank(rank: nat -> real, s: seq<nat>, r: real): seq<nat> {
    if s == [] then []
    else
      var init := WithRank(rank, s[..|s| - 1], r);
      if rank(s[|s| - 1]) == r then init + [s[|s| - 1]] else init
  }

  /** `t` is `s` rearranged so that higher ranks come first and equal ranks keep their order. */
  ghost predicate StablyRanked(rank: nat -> real, s: seq<nat>, t: seq<nat>) {
    && Ranked(rank, t)
    && multiset(t) == multiset(s)
    && forall r :: WithRank(rank, t, r) == WithRank(rank, s, r)
  }

  /** `x` placed behind every element of the ranked sequence that does not rank below it. */
  function Insert(rank: nat -> real, s: seq<nat>, x: nat): seq<nat> {
    if s == [] || rank(s[|s| - 1]) >= rank(x) then s + [x]
    else Insert(rank, s[..|s| - 1], x) + [s[|s| - 1]]
  }

  function StableSort(rank: nat -> real, s: seq<nat>): seq<nat> {
    if s == [] then [] else Insert(rank, StableSort(rank, s[..|s| - 1]), s[|s| - 1])
  }

  lemma {:induction false} InsertMultiset(rank: nat -> real, s: seq<nat>, x: nat)
    ensures multiset(Insert(rank, s, x)) == multiset(s) + multiset{x}
  {
    if s != [] && rank(s[|s| - 1]) < rank(x) {
      InsertMultiset(rank, s[..|s| - 1], x);
      assert s == s[..|s| - 1] + [s[|s| - 1]];
    }
  }

  lemma {:induction false} InsertRanked(rank: nat -> real, s: seq<nat>, x: nat)
    requires Ranked(rank, s)
    ensures Ranked(rank, Insert(rank, s, x))
  {
    if s != [] && rank(s[|s| - 1]) < rank(x) {
      var init, last := s[..|s| - 1], s[|s| - 1];
      InsertRanked(rank, init, x);
      InsertMultiset(rank, init, x);
      var t := Insert(rank, init, x);
      forall a | 0 <= a < |t| ensures rank(t[a]) >= rank(last) {
        assert t[a] in multiset(t);
        if t[a] != x {
          assert t[a] in multiset(init);
          assert t[a] in init;
        }
      }
    }
  }

  lemma {:induction false} WithRankAppend(rank: nat -> real, s: seq<nat>, x: nat, r: real)
    ensures WithRank(rank, s + [x], r) == WithRank(rank, s, r) + (if rank(x) == r then [x] else [])
  {
    assert (s + [x])[..|s|] == s;
  }

  lemma {:induction false} InsertStable(rank: nat -> real, s: seq<nat>, x: nat, r: real)
    requires Ranked(rank, s)
    ensures WithRank(rank, Insert(rank, s, x), r) == WithRank(rank, s + [x], r)
  {
    if s != [] && rank(s[|s| - 1]) < rank(x) {
      var init, last := s[..|s| - 1], s[|s| - 1];
      InsertStable(rank, init, x, r);
      WithRankAppend(rank, Insert(rank, init, x), last, r);
      WithRankAppend(rank, init, x, r);
      WithRankAppend(rank, s, x, r);
      WithRankAppend(rank, init, last, r);
      assert init + [last] == s;
      assert Insert(rank, s, x) == Insert(rank, init, x) + [last];
    }
  }

  lemma {:induction false} StableSortIsStablyRanked(rank: nat -> real, s: seq<nat>)
    ensures StablyRanked(rank, s, StableSort(rank, s))
  {
    if s != [] {
      var init, x := s[..|s| - 1], s[|s| - 1];
      StableSortIsStablyRanked(rank, init);
      var t := StableSort(rank, init);
      InsertRanked(rank, t, x);
      InsertMultiset(rank, t, x);
      assert s == init + [x];
      forall r ensures WithRank(rank, Insert(rank, t, x), r) == WithRank(rank, s, r) {
        InsertStable(rank, t, x, r);
        WithRankAppend(rank, t, x, r);
        WithRankAppend(rank, init, x, r);
      }
    }
  }

  /** Where the elements of rank `r` stand. */
  function PlacesOf(rank: nat -> real, s: seq<nat>, r: real): (at: seq<nat>)
    ensures |at| == |WithRank(rank, s, r)|
  {
    if s == [] then []
    else
      var init := PlacesOf(rank, s[..|s| - 1], r);
      if rank(s[|s| - 1]) == r then init + [|s| - 1] else init
  }

  /** `at` lists in order the places of the elements of rank `r`, which are `those`. */
  ghost predicate ArePlaces(rank: nat -> real, s: seq<nat>, r: real, at: seq<nat>, those: seq<nat>) {
    && |at| == |those| && (forall k | 0 <= k < |at| :: at[k] < |s| && s[at[k]] == those[k])
    && (forall j, k | 0 <= j < k < |at| :: at[j] < at[k])
    && (forall p: nat | p < |s| && rank(s[p]) == r :: p in at)
  }

  lemma PlacesLonger(rank: nat -> real, s: seq<nat>, x: nat, at: seq<nat>, those: seq<nat>, r: real)
    requires ArePlaces(rank, s, r, at, those)
    ensures rank(x) == r ==> ArePlaces(rank, s + [x], r, at + [|s|], those + [x])
    ensures rank(x) != r ==> ArePlaces(rank, s + [x], r, at, those)
  {
    var longer, more := s + [x], at + [|s|];
    forall p: nat | p < |longer| && rank(longer[p]) == r ensures p in more && (rank(x) != r ==> p in at) {
      if p < |s| { assert p in at; }
    }
  }

  lemma {:induction false} PlacesAscend(rank: nat -> real, s: seq<nat>, r: real)
    ensures var at := PlacesOf(rank, s, r);
            ArePlaces(rank, s, r, at, WithRank(rank, s, r))
  {
    if s != [] {
      var init, last := s[..|s| - 1], s[|s| - 1];
      PlacesAscend(rank, init, r);
      PlacesLonger(rank, init, last, PlacesOf(rank, init, r), WithRank(rank, init, r), r);
      assert s == init + [last];
    }
  }

  /** What stands in two ascending lists at the places of `a` and `b` in the first. */
  lemma Matching(from: seq<nat>, to: seq<nat>, a: nat, b: nat) returns (p: nat, q: nat)
    requires |from| == |to| && a in from && b in from && a < b
    requires forall j, k | 0 <= j < k < |from| :: from[j] < from[k] && to[j] < to[k]
    ensures p < q && exists j, k :: 0 <= j < k < |from| && from[j] == a && from[k] == b && to[j] == p && to[k] == q
  {
    var j :| 0 <= j < |from| && from[j] == a;
    var k :| 0 <= k < |from| && from[k] == b;
    p, q := to[j], to[k];
  }

  /** Of two elements of equal rank, the one that comes first in the sorted sequence came first before. */
  lemma TiesKeepOrder(rank: nat -> real, s: seq<nat>, a: nat, b: nat) returns (p: nat, q: nat)
    requires a < b < |StableSort(rank, s)| && rank(StableSort(rank, s)[a]) == rank(StableSort(rank, s)[b])
    ensures p < q < |s| && s[p] == StableSort(rank, s)[a] && s[q] == StableSort(rank, s)[b]
  {
    var t := StableSort(rank, s);
    var r := rank(t[a]);
    StableSortIsStablyRanked(rank, s);
    PlacesAscend(rank, s, r);
    PlacesAscend(rank, t, r);
    p, q := Matching(PlacesOf(rank, t, r), PlacesOf(rank, s, r), a, b);
  }

  lemma {:induction false} WithRankMembers(rank: nat -> real, s: seq<nat>, r: real)
    ensures forall x :: x in WithRank(rank, s, r) <==> x in s && rank(x) == r
  {
    if s != [] {
      WithRankMembers(rank, s[..|s| - 1], r);
      assert s == s[..|s| - 1] + [s[|s| - 1]];
    }
  }

  lemma WithRankCancel(rank: nat -> real, s: seq<nat>, t: seq<nat>, x: nat, r: real)
    requires WithRank(rank, s + [x], r) == WithRank(rank, t + [x], r)
    ensures WithRank(rank, s, r) == WithRank(rank, t, r)
  {
    WithRankAppend(rank, s, x, r);
    WithRankAppend(rank, t, x, r);
    var tail := if rank(x) == r then [x] else [];
    var left, right := WithRank(rank, s, r), WithRank(rank, t, r);
    assert left == (left + tail)[..|left + tail| - |tail|];
    assert right == (right + tail)[..|right + tail| - |tail|];
  }

  lemma SameLast(rank: nat -> real, t: seq<nat>, u: seq<nat>)
    requires t != [] && u != []
    requires StablyRanked(rank, t, u) && Ranked(rank, t)
    ensures t[|t| - 1] == u[|u| - 1]
  {
    var x, y := t[|t| - 1], u[|u| - 1];
    assert x in multiset(u) && y in multiset(t);
    assert x in u && y in t;
    assert rank(x) == rank(y);
    var same := WithRank(rank, t, rank(x));
    assert same == WithRank(rank, u, rank(x));
    assert same[|same| - 1] == x && same[|same| - 1] == y;
  }

  lemma RankedInit(rank: nat -> real, s: seq<nat>, x: nat)
    requires Ranked(rank, s + [x])
    ensures Ranked(rank, s)
  {
    forall a, b | 0 <= a < b < |s| ensures rank(s[a]) >= rank(s[b]) {
      assert s[a] == (s + [x])[a] && s[b] == (s + [x])[b];
    }
  }

  lemma StablyRankedInit(rank: nat -> real, t: seq<nat>, u: seq<nat>, x: nat)
    requires StablyRanked(rank, t + [x], u + [x])
    ensures StablyRanked(rank, t, u)
  {
    RankedInit(rank, u, x);
    assert multiset(t) == multiset(t + [x]) - multiset{x};
    assert multiset(u) == multiset(u + [x]) - multiset{x};
    forall r ensures WithRank(rank, u, r) == WithRank(rank, t, r) {
      assert WithRank(rank, u + [x], r) == WithRank(rank, t + [x], r);
      WithRankCancel(rank, u, t, x, r);
    }
  }

  /** Rank order and stability leave no freedom: two ranked rearrangements of each other that agree rank by rank are equal. */
  lemma {:induction false} StablyRankedUnique(rank: nat -> real, t: seq<nat>, u: seq<nat>)
    requires StablyRanked(rank, t, u) && Ranked(rank, t)
    ensures t == u
    decreases |t|
  {
    assert |t| == |multiset(t)| == |multiset(u)| == |u|;
    if t != [] {
      SameLast(rank, t, u);
      var x, t', u' := t[|t| - 1], t[..|t| - 1], u[..|u| - 1];
      assert t == t' + [x] && u == u' + [x];
      StablyRankedInit(rank, t', u', x);
      RankedInit(rank, t', x);
      StablyRankedUnique(rank, t', u');
    }
  }

  /** So `StableSort` is the only function with the promise of a stable sort. */
  lemma StableSortUnique(rank: nat -> real, s: seq<nat>, t: seq<nat>)
    ensures StablyRanked(rank, s, t) <==> t == StableSort(rank, s)
  {
    StableSortIsStablyRanked(rank, s);
    if StablyRanked(rank, s, t) {
      StablyRankedUnique(rank, t, StableSort(rank, s));
    }
  }

  /** Inserting behind the part `front` and ahead of the outranked part `back`. */
  lemma {:induction false} InsertAt(rank: nat -> real, front: seq<nat>, x: nat, back: seq<nat>)
    requires forall y | y in back :: rank(y) < rank(x)
    requires front == [] || rank(front[|front| - 1]) >= rank(x)
    ensures Insert(rank, front + back, x) == front + [x] + back
    decreases |back|
  {
    if back == [] {
      assert front + back == front;
    } else {
      var last := back[|back| - 1];
      assert (front + back)[..|front + back| - 1] == front + back[..|back| - 1];
      InsertAt(rank, front, x, back[..|back| - 1]);
      assert front + [x] + back == front + [x] + back[..|back| - 1] + [last];
    }
  }
}
