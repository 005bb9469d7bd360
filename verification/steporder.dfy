/** The order of a job's steps: by start time, then by name (internal/engine/logging.go:188-200). */
module StepOrder {
  import opened Model

  /** Strings compare character by character; a proper prefix comes first. */
  predicate TextLess(s: string, t: string) {
    t != "" && (s == "" || s[0] < t[0] || (s[0] == t[0] && TextLess(s[1..], t[1..])))
  }

  lemma {:induction false} TextLessTransitive(s: string, t: string, u: string)
    requires TextLess(s, t) && TextLess(t, u)
    ensures TextLess(s, u)
  {
    if s != "" && s[0] == t[0] && t[0] == u[0] { TextLessTransitive(s[1..], t[1..], u[1..]); }
  }

  /** Exactly one of less, equal and greater. */
  lemma {:induction false} TextLessTotal(s: string, t: string)
    ensures TextLess(s, t) || TextLess(t, s) || s == t
    ensures !(TextLess(s, t) && TextLess(t, s)) && !TextLess(s, s)
  {
    if s != "" && t != "" {
      TextLessTotal(s[1..], t[1..]);
      if s[0] == t[0] && s[1..] == t[1..] {
        assert s == [s[0]] + s[1..] == t;
      }
    }
    if s != "" { TextLessTotal(s[1..], s[1..]); }
  }

  /** The texts agree up to position `k`, and there the first one ends or has the smaller character. */
  predicate SmallerAt(s: string, t: string, k: nat) {
    k <= |s| && k < |t| && s[..k] == t[..k] && (k == |s| || s[k] < t[k])
  }

  /** The first character at which two texts differ decides, or the end of the shorter one. */
  lemma {:induction false} TextLessMeans(s: string, t: string)
    ensures TextLess(s, t) <==> exists k: nat :: SmallerAt(s, t, k)
  {
    if s != "" && t != "" && s[0] == t[0] {
      TextLessMeans(s[1..], t[1..]);
      forall k: nat ensures SmallerAt(s[1..], t[1..], k) <==> SmallerAt(s, t, k + 1) {
        if k <= |s| - 1 && k < |t| - 1 { SameHead(s, t, k); }
      }
      forall k: nat | SmallerAt(s, t, k) ensures exists m: nat :: SmallerAt(s[1..], t[1..], m) {
        assert SmallerAt(s, t, (k - 1) + 1) && SmallerAt(s[1..], t[1..], k - 1);
      }
    } else if s != "" && t != "" {
      assert SmallerAt(s, t, 0) <==> s[0] < t[0];
      forall k: nat | SmallerAt(s, t, k) ensures k == 0 { AgreeAtHead(s, t, k); }
    } else {
      assert SmallerAt(s, t, 0) <==> t != "";
    }
  }

  lemma AgreeAtHead(s: string, t: string, k: nat)
    requires k <= |s| && k <= |t| && s[..k] == t[..k]
    ensures k > 0 ==> s[0] == t[0]
  {
    if k > 0 { assert s[0] == s[..k][0] == t[..k][0]; }
  }

  lemma SameHead(s: string, t: string, k: nat)
    requires k < |s| && k < |t| && s[0] == t[0]
    ensures s[1..][..k] == t[1..][..k] <==> s[..k + 1] == t[..k + 1]
  {
    assert s[..k + 1] == [s[0]] + s[1..][..k] && t[..k + 1] == [t[0]] + t[1..][..k];
    assert s[..k + 1][1..] == s[1..][..k] && t[..k + 1][1..] == t[1..][..k];
  }

  /** The comparison `Apply` sorts with. */
  predicate Before(left: JobStep, right: JobStep) {
    if left.startedAt.None? then false
    else if right.startedAt.None? then true
    else if left.startedAt == right.startedAt then TextLess(left.name, right.name)
    else left.startedAt.value < right.startedAt.value
  }

  predicate Sorted(list: seq<JobStep>) { forall a, b | 0 <= a < b < |list| :: Before(list[a], list[b]) }

  /** The records of a job under their names; every one has been started. */
  predicate Named(known: map<string, JobStep>) {
    forall name | name in known :: known[name].name == name && known[name].startedAt.Some?
  }

  /** `list` holds exactly the records of `known`, in order. */
  ghost predicate Arranged(known: map<string, JobStep>, list: seq<JobStep>) {
    && Sorted(list)
    && forall step :: step in list <==> step.name in known && known[step.name] == step
  }

  lemma BeforeTransitive(x: JobStep, y: JobStep, z: JobStep)
    requires Before(x, y) && Before(y, z)
    ensures Before(x, z)
  {
    if z.startedAt.Some? && x.startedAt == z.startedAt && x.startedAt == y.startedAt { TextLessTransitive(x.name, y.name, z.name); }
  }

  lemma BeforeTotal(x: JobStep, y: JobStep)
    requires x.startedAt.Some? && y.startedAt.Some?
    ensures Before(x, y) || Before(y, x) || x.name == y.name
    ensures !(Before(x, y) && Before(y, x)) && !Before(x, x)
  {
    TextLessTotal(x.name, y.name);
  }

  /** `step` in its place among sorted records. */
  function Insert(list: seq<JobStep>, step: JobStep): seq<JobStep> {
    if list == [] || !Before(step, list[|list| - 1]) then list + [step]
    else Insert(list[..|list| - 1], step) + [list[|list| - 1]]
  }

  lemma {:induction false} InsertMembers(list: seq<JobStep>, step: JobStep)
    ensures forall x :: x in Insert(list, step) <==> x in list || x == step
  {
    if list != [] && Before(step, list[|list| - 1]) {
      InsertMembers(list[..|list| - 1], step);
      assert list == list[..|list| - 1] + [list[|list| - 1]];
    }
  }

  lemma {:induction false} InsertSorted(list: seq<JobStep>, step: JobStep)
    requires Sorted(list) && step.startedAt.Some?
    requires forall x | x in list :: x.startedAt.Some? && x.name != step.name
    ensures Sorted(Insert(list, step))
  {
    if list != [] {
      var init, last := list[..|list| - 1], list[|list| - 1];
      BeforeTotal(step, last);
      if Before(step, last) {
        InsertSorted(init, step);
        InsertMembers(init, step);
        var t := Insert(init, step);
        forall a | 0 <= a < |t| ensures Before(t[a], last) {
          assert t[a] in t;
        }
      } else {
        forall a | 0 <= a < |list| - 1 ensures Before(list[a], step) {
          BeforeTransitive(list[a], last, step);
        }
      }
    }
  }

  /** Lines 184-200: the records, visited in any order, and sorted. */
  method Arrange(known: map<string, JobStep>) returns (list: seq<JobStep>)
    requires Named(known)
    ensures Arranged(known, list)
  {
    list := [];
    var rest := known.Keys;
    while rest != {}
      invariant rest <= known.Keys
      invariant Sorted(list)
      invariant forall step :: step in list <==> step.name in known && step.name !in rest && known[step.name] == step
      decreases |rest|
    {
      var name :| name in rest;
      rest := rest - {name};
      InsertSorted(list, known[name]);
      InsertMembers(list, known[name]);
      list := Insert(list, known[name]);
    }
  }

  lemma SortedTail(list: seq<JobStep>)
    requires Sorted(list) && list != [] && forall x | x in list :: x.startedAt.Some?
    ensures Sorted(list[1..]) && list[0] !in list[1..]
    ensures forall x | x in list[1..] :: Before(list[0], x)
  {
    forall x | x in list[1..] ensures Before(list[0], x) && x != list[0] {
      BeforeTotal(list[0], x);
    }
  }

  lemma HeadIn(list: seq<JobStep>)
    requires list != []
    ensures list[0] in list
  {
  }

  lemma InTail(list: seq<JobStep>, x: JobStep)
    requires list != [] && x in list && x != list[0]
    ensures x in list[1..]
  {
    var k :| 0 <= k < |list| && list[k] == x;
    assert list[1..][k - 1] == x;
  }

  lemma {:induction false} SameMembersSameOrder(list: seq<JobStep>, other: seq<JobStep>)
    requires Sorted(list) && Sorted(other)
    requires forall x :: x in list <==> x in other
    requires forall x | x in list :: x.startedAt.Some?
    ensures list == other
  {
    if list == [] {
      if other != [] { HeadIn(other); }
    } else {
      assert list[0] in other;
      SortedTail(list);
      SortedTail(other);
      if list[0] != other[0] {
        assert other[0] in other;
        InTail(list, other[0]);
        InTail(other, list[0]);
        BeforeTotal(list[0], other[0]);
      }
      forall x ensures x in list[1..] <==> x in other[1..] {
        if x in list[1..] {
          assert x in list;
          InTail(other, x);
        } else if x in other[1..] {
          assert x in other;
          InTail(list, x);
        }
      }
      SameMembersSameOrder(list[1..], other[1..]);
    }
  }

  /** Sorted records ascend by the time they started, and by name among those that started together. */
  lemma SortedMeans(list: seq<JobStep>, a: nat, b: nat)
    requires Sorted(list) && a < b < |list| && list[a].startedAt.Some? && list[b].startedAt.Some?
    ensures list[a].startedAt.value <= list[b].startedAt.value
    ensures list[a].startedAt == list[b].startedAt ==> exists k: nat :: SmallerAt(list[a].name, list[b].name, k)
  {
    TextLessMeans(list[a].name, list[b].name);
  }

  /** The step order does not depend on the order in which the records are visited. */
  lemma ArrangedUnique(known: map<string, JobStep>, list: seq<JobStep>, other: seq<JobStep>)
    requires Named(known) && Arranged(known, list) && Arranged(known, other)
    ensures list == other
  {
    SameMembersSameOrder(list, other);
  }
}
