/**
 Which caller a log line of a reusable workflow belongs to (engine.go:573-624). `children` gives, for
 each selected caller of a readable local workflow, the job IDs of that workflow. Callers and their
 children are visited in any order.
 */
module Aliases {
  import opened Model

  /** The alias of `child` after the callers in `order` have been visited. */
  function AliasAfter(topLevel: set<string>, children: map<string, set<string>>, order: seq<string>, child: string): Option<string>
    requires forall k | 0 <= k < |order| :: order[k] in children
  {
    if order == [] then None
    else
      var caller, before := order[|order| - 1], AliasAfter(topLevel, children, order[..|order| - 1], child);
      if child in topLevel || child !in children[caller] then before
      else if before.None? then Some(caller)
      else None
  }

  function Claimants(children: map<string, set<string>>, child: string): set<string> {
    set caller | caller in children && child in children[caller]
  }

  /** A visiting order of all the callers. */
  ghost predicate Visits(children: map<string, set<string>>, order: seq<string>) {
    && (forall k | 0 <= k < |order| :: order[k] in children)
    && (forall a, b | 0 <= a < b < |order| :: order[a] != order[b])
    && (forall caller | caller in children :: caller in order)
  }

  function ClaimantsIn(children: map<string, set<string>>, order: seq<string>, child: string): set<string>
    requires forall k | 0 <= k < |order| :: order[k] in children
  {
    set k | 0 <= k < |order| && child in children[order[k]] :: order[k]
  }

  lemma ClaimantsStep(children: map<string, set<string>>, order: seq<string>, child: string)
    requires order != [] && forall k | 0 <= k < |order| :: order[k] in children
    requires forall a, b | 0 <= a < b < |order| :: order[a] != order[b]
    ensures var init, caller := order[..|order| - 1], order[|order| - 1];
            && caller !in ClaimantsIn(children, init, child)
            && ClaimantsIn(children, order, child) ==
               ClaimantsIn(children, init, child) + (if child in children[caller] then {caller} else {})
  {
    var init := order[..|order| - 1];
    assert forall k | 0 <= k < |init| :: init[k] == order[k];
  }

  lemma OneMore(claimants: set<string>, caller: string)
    requires caller !in claimants
    ensures |claimants + {caller}| % 2 == 1 <==> |claimants| % 2 != 1
  {
  }

  lemma {:induction false} AliasParity(topLevel: set<string>, children: map<string, set<string>>, order: seq<string>, child: string)
    requires forall k | 0 <= k < |order| :: order[k] in children
    requires forall a, b | 0 <= a < b < |order| :: order[a] != order[b]
    ensures AliasAfter(topLevel, children, order, child).Some? <==>
            child !in topLevel && |ClaimantsIn(children, order, child)| % 2 == 1
    ensures AliasAfter(topLevel, children, order, child).Some? ==>
            AliasAfter(topLevel, children, order, child).value in ClaimantsIn(children, order, child)
  {
    if order == [] {
      assert ClaimantsIn(children, order, child) == {};
    } else {
      var init, caller := order[..|order| - 1], order[|order| - 1];
      AliasParity(topLevel, children, init, child);
      ClaimantsStep(children, order, child);
      if child in children[caller] {
        OneMore(ClaimantsIn(children, init, child), caller);
      } else {
        assert ClaimantsIn(children, order, child) == ClaimantsIn(children, init, child);
      }
    }
  }

  /**
   The alias law: over any visiting order, a child of the called workflows that is no top-level job
   has an alias iff the number of its claimants is odd, and then the alias is one of them.
   */
  lemma AliasLaw(topLevel: set<string>, children: map<string, set<string>>, order: seq<string>, child: string)
    requires Visits(children, order)
    ensures var alias := AliasAfter(topLevel, children, order, child);
            && (alias.Some? <==> child !in topLevel && |Claimants(children, child)| % 2 == 1)
            && (alias.Some? ==> alias.value in Claimants(children, child))
  {
    AliasParity(topLevel, children, order, child);
    assert ClaimantsIn(children, order, child) == Claimants(children, child);
  }

  /** A child with one claimant is filed under it. */
  lemma SoleClaimant(topLevel: set<string>, children: map<string, set<string>>, order: seq<string>, child: string, caller: string)
    requires Visits(children, order) && child !in topLevel && Claimants(children, child) == {caller}
    ensures AliasAfter(topLevel, children, order, child) == Some(caller)
  {
    AliasLaw(topLevel, children, order, child);
  }

  /** Ambiguity is recognised iff the number of claimants is not an odd number above one. */
  lemma AmbiguityRecognised(topLevel: set<string>, children: map<string, set<string>>, order: seq<string>, child: string)
    requires Visits(children, order) && child !in topLevel && |Claimants(children, child)| >= 2
    ensures AliasAfter(topLevel, children, order, child) == None <==> |Claimants(children, child)| % 2 == 0
  {
    AliasLaw(topLevel, children, order, child);
  }

  /** Three callers that share a child: the child is filed under the last one visited, ambiguous as it is. */
  lemma ThreeClaimants()
    ensures var children := map["a" := {"build"}, "b" := {"build"}, "c" := {"build"}];
            Visits(children, ["a", "b", "c"]) && AliasAfter({}, children, ["a", "b", "c"], "build") == Some("c")
  {
    var children := map["a" := {"build"}, "b" := {"build"}, "c" := {"build"}];
    var order := ["a", "b", "c"];
    assert order[..2] == ["a", "b"] && ["a", "b"][..1] == ["a"];
    assert AliasAfter({}, children, ["a"], "build") == Some("a");
    assert AliasAfter({}, children, ["a", "b"], "build") == None;
    assert order[0] == "a" && order[1] == "b" && order[2] == "c";
  }

  /** What one more caller does to an alias; it is never the caller's already. */
  lemma VisitStep(topLevel: set<string>, children: map<string, set<string>>, order: seq<string>, caller: string, child: string)
    requires caller in children && forall k | 0 <= k < |order| :: order[k] in children && order[k] != caller
    requires forall a, b | 0 <= a < b < |order| :: order[a] != order[b]
    ensures var before := AliasAfter(topLevel, children, order, child);
            && before != Some(caller)
            && AliasAfter(topLevel, children, order + [caller], child) ==
               if child in topLevel || child !in children[caller] then before else if before.None? then Some(caller) else None
  {
    AliasParity(topLevel, children, order, child);
    assert (order + [caller])[..|order|] == order;
  }

  function Lookup(aliases: map<string, string>, child: string): Option<string> {
    if child in aliases then Some(aliases[child]) else None
  }

  /** The alias map holds what visiting the callers in `order` leaves. */
  ghost predicate Represents(topLevel: set<string>, children: map<string, set<string>>, order: seq<string>, aliases: map<string, string>)
    requires forall k | 0 <= k < |order| :: order[k] in children
  {
    forall child :: Lookup(aliases, child) == AliasAfter(topLevel, children, order, child)
  }

  /** The alias law for a whole map. */
  ghost predicate Lawful(topLevel: set<string>, children: map<string, set<string>>, aliases: map<string, string>) {
    && (forall child :: child in aliases <==> child !in topLevel && |Claimants(children, child)| % 2 == 1)
    && (forall child | child in aliases :: aliases[child] in Claimants(children, child))
  }

  lemma VisitedIsLawful(topLevel: set<string>, children: map<string, set<string>>, order: seq<string>, aliases: map<string, string>)
    requires Visits(children, order) && Represents(topLevel, children, order, aliases)
    ensures Lawful(topLevel, children, aliases)
  {
    forall child
      ensures child in aliases <==> child !in topLevel && |Claimants(children, child)| % 2 == 1
      ensures child in aliases ==> aliases[child] in Claimants(children, child)
    {
      AliasLaw(topLevel, children, order, child);
      assert Lookup(aliases, child) == AliasAfter(topLevel, children, order, child);
    }
  }

  method ReusableJobAliases(topLevel: set<string>, children: map<string, set<string>>) returns (aliases: map<string, string>)
    ensures Lawful(topLevel, children, aliases)
    ensures exists order :: Visits(children, order) && Represents(topLevel, children, order, aliases)
  {
    aliases := map[];
    ghost var order: seq<string> := [];
    var todo := children.Keys;
    while todo != {}
      invariant todo <= children.Keys
      invariant forall k | 0 <= k < |order| :: order[k] in children && order[k] !in todo
      invariant forall a, b | 0 <= a < b < |order| :: order[a] != order[b]
      invariant forall caller | caller in children && caller !in todo :: caller in order
      invariant Represents(topLevel, children, order, aliases)
      decreases |todo|
    {
      var caller :| caller in todo;
      todo := todo - {caller};
      aliases := Claim(topLevel, children, caller, aliases, order);
      order := order + [caller];
    }
    VisitedIsLawful(topLevel, children, order, aliases);
  }

  /** Lines 598-607 for one caller. */
  method Claim(topLevel: set<string>, children: map<string, set<string>>, caller: string, before: map<string, string>, ghost order: seq<string>)
    returns (aliases: map<string, string>)
    requires caller in children && forall k | 0 <= k < |order| :: order[k] in children && order[k] != caller
    requires forall a, b | 0 <= a < b < |order| :: order[a] != order[b]
    requires Represents(topLevel, children, order, before)
    ensures Represents(topLevel, children, order + [caller], aliases)
  {
    aliases := before;
    var todo := children[caller];
    forall child ensures child !in todo ==> AliasAfter(topLevel, children, order + [caller], child) == AliasAfter(topLevel, children, order, child) {
      VisitStep(topLevel, children, order, caller, child);
    }
    while todo != {}
      invariant todo <= children[caller]
      invariant forall child :: Lookup(aliases, child) ==
                                if child in todo then AliasAfter(topLevel, children, order, child)
                                else AliasAfter(topLevel, children, order + [caller], child)
      decreases |todo|
    {
      var child :| child in todo;
      VisitStep(topLevel, children, order, caller, child);
      todo := todo - {child};
      if child !in topLevel {
        if child !in aliases || aliases[child] == caller {
          aliases := aliases[child := caller];
        } else {
          aliases := aliases - {child};
        }
      }
    }
  }

  /** The selected jobs seen so far contain no caller, or just the one found. */
  ghost predicate FoundSoFar(callers: set<string>, todo: set<string>, fallback: string) {
    && callers - todo == (if fallback == "" then {} else {fallback})
    && (fallback != "" ==> fallback in callers)
  }

  lemma FoundNext(callers: set<string>, todo: set<string>, fallback: string, jobID: string)
    requires FoundSoFar(callers, todo, fallback) && jobID in todo && jobID != ""
    requires jobID in callers ==> fallback == ""
    ensures FoundSoFar(callers, todo - {jobID}, if jobID in callers then jobID else fallback)
  {
    assert callers - (todo - {jobID}) == (callers - todo) + (callers * {jobID});
  }

  /** `reusableFallback`: the only selected job that calls a workflow; `callers` are those that do. */
  method ReusableFallback(selected: set<string>, callers: set<string>) returns (fallback: string)
    requires callers <= selected && "" !in selected
    ensures fallback != "" <==> |callers| == 1
    ensures fallback != "" ==> callers == {fallback}
  {
    fallback := "";
    var todo := selected;
    while todo != {}
      invariant todo <= selected && FoundSoFar(callers, todo, fallback)
      decreases |todo|
    {
      var jobID :| jobID in todo;
      if jobID in callers && fallback != "" {
        TwoCallers(callers, jobID, fallback);
        return "";
      }
      FoundNext(callers, todo, fallback, jobID);
      todo := todo - {jobID};
      if jobID in callers {
        fallback := jobID;
      }
    }
    assert callers == callers - todo;
  }

  lemma TwoCallers(callers: set<string>, left: string, right: string)
    requires left in callers && right in callers && left != right
    ensures |callers| >= 2
  {
    assert |callers - {left}| == |callers| - 1 && right in callers - {left};
  }
}
