/** Trigger filters (internal/workflow/workflow.go:241-316). The glob matcher is a parameter; a malformed pattern matches nothing. */
module Triggers {
  import opened Model

  type Glob = (string, string) -> bool

  predicate Negative(pattern: string) { pattern != "" && pattern[0] == '!' }

  function Stem(pattern: string): string { if Negative(pattern) then pattern[1..] else pattern }

  predicate Hits(glob: Glob, pattern: string, value: string) { glob(Stem(pattern), value) }

  /** The sign of the last pattern that matches, or `initial` if none does. */
  function LastSign(glob: Glob, patterns: seq<string>, value: string, initial: bool): bool {
    if patterns == [] then initial
    else
      var last := patterns[|patterns| - 1];
      if Hits(glob, last, value) then !Negative(last) else LastSign(glob, patterns[..|patterns| - 1], value, initial)
  }

  /** The last pattern that matches decides, and patterns that do not match are irrelevant. */
  lemma {:induction false} LastMatchDecides(glob: Glob, patterns: seq<string>, value: string, initial: bool, k: int)
    requires -1 <= k < |patterns| && forall m | k < m < |patterns| :: !Hits(glob, patterns[m], value)
    requires k >= 0 ==> Hits(glob, patterns[k], value)
    ensures LastSign(glob, patterns, value, initial) == if k >= 0 then !Negative(patterns[k]) else initial
  {
    if k < |patterns| - 1 {
      LastMatchDecides(glob, patterns[..|patterns| - 1], value, initial, k);
    }
  }

  /** A positive pattern matches, and no negative one after it does. */
  ghost predicate Picks(glob: Glob, patterns: seq<string>, value: string) {
    exists k | 0 <= k < |patterns| && !(patterns[k] != "" && patterns[k][0] == '!') :: glob(patterns[k], value) &&
      forall m | k < m < |patterns| && patterns[m] != "" && patterns[m][0] == '!' :: !glob(patterns[m][1..], value)
  }

  lemma {:induction false} PicksExactly(glob: Glob, patterns: seq<string>, value: string)
    ensures LastSign(glob, patterns, value, false) <==> Picks(glob, patterns, value)
  {
    if patterns != [] {
      var init, last := patterns[..|patterns| - 1], patterns[|patterns| - 1];
      PicksExactly(glob, init, value);
      if Hits(glob, last, value) && !Negative(last) {
        assert patterns[|patterns| - 1] == last && glob(last, value);
      } else {
        PicksLonger(glob, patterns, value);
      }
    }
  }

  /** A last pattern that is negative or does not match picks nothing of its own. */
  lemma PicksLonger(glob: Glob, patterns: seq<string>, value: string)
    requires patterns != [] && (Negative(patterns[|patterns| - 1]) || !Hits(glob, patterns[|patterns| - 1], value))
    ensures Picks(glob, patterns, value) <==>
            !Hits(glob, patterns[|patterns| - 1], value) && Picks(glob, patterns[..|patterns| - 1], value)
  {
    var init, last := patterns[..|patterns| - 1], patterns[|patterns| - 1];
    if Picks(glob, patterns, value) {
      var k :| 0 <= k < |patterns| && !Negative(patterns[k]) && glob(patterns[k], value) &&
               forall m | k < m < |patterns| && Negative(patterns[m]) :: !glob(patterns[m][1..], value);
      assert init[k] == patterns[k];
    }
    if Picks(glob, init, value) && !Hits(glob, last, value) {
      var k :| 0 <= k < |init| && !Negative(init[k]) && glob(init[k], value) &&
               forall m | k < m < |init| && Negative(init[m]) :: !glob(init[m][1..], value);
      assert patterns[k] == init[k];
      forall m | k < m < |patterns| && Negative(patterns[m]) ensures !glob(patterns[m][1..], value) {
        if m < |init| { assert patterns[m] == init[m]; }
      }
    }
  }

  method OrderedMatch(glob: Glob, patterns: seq<string>, value: string, initial: bool) returns (matched: bool)
    ensures matched == LastSign(glob, patterns, value, initial)
  {
    matched := initial;
    for k := 0 to |patterns|
      invariant matched == LastSign(glob, patterns[..k], value, initial)
    {
      assert patterns[..k + 1][..k] == patterns[..k];
      if glob(Stem(patterns[k]), value) {
        matched := !Negative(patterns[k]);
      }
    }
    assert patterns[..|patterns|] == patterns;
  }

  /** The filters declared for an event; an event configured without a mapping has none. */
  datatype Filters =
    | Unfiltered
    | Filters(branches: seq<string>, branchesIgnore: seq<string>, tags: seq<string>, tagsIgnore: seq<string>,
              paths: seq<string>, pathsIgnore: seq<string>)

  datatype Event = Event(name: string, baseRef: string, headRef: string, fidelity: Fidelity)

  function MatchFilter(glob: Glob, included: seq<string>, ignored: seq<string>, value: string): bool {
    if included != [] then LastSign(glob, included, value, false)
    else if ignored != [] then !LastSign(glob, ignored, value, false)
    else true
  }

  /** A changed file selects the workflow. */
  predicate Selects(glob: Glob, included: seq<string>, ignored: seq<string>, file: string) {
    (included != [] && LastSign(glob, included, file, false)) || (ignored != [] && !LastSign(glob, ignored, file, false))
  }

  predicate MatchPaths(glob: Glob, included: seq<string>, ignored: seq<string>, files: seq<string>) {
    (included == [] && ignored == []) || AnySelects(glob, included, ignored, files)
  }

  /** The early-return scan over the changed files. */
  predicate AnySelects(glob: Glob, included: seq<string>, ignored: seq<string>, files: seq<string>)
    ensures AnySelects(glob, included, ignored, files) <==> exists k | 0 <= k < |files| :: Selects(glob, included, ignored, files[k])
  {
    files != [] && (Selects(glob, included, ignored, files[0]) || AnySelects(glob, included, ignored, files[1..]))
  }

  function MatchesEvent(glob: Glob, handled: seq<string>, filters: Filters, event: Event, files: seq<string>): (bool, string, Fidelity) {
    if event.name !in handled then (false, "workflow does not handle " + event.name, Exact)
    else if filters.Unfiltered? then (true, "", event.fidelity)
    else
      var hasTags := filters.tags != [] || filters.tagsIgnore != [];
      var hasBranches := filters.branches != [] || filters.branchesIgnore != [];
      var branch := if event.name == "pull_request" || event.name == "pull_request_target" then event.baseRef else event.headRef;
      if event.name == "push" && hasTags && !hasBranches then (false, "workflow only handles tag pushes", Exact)
      else if !MatchFilter(glob, filters.branches, filters.branchesIgnore, branch) then (false, "branch filters do not match " + branch, Exact)
      else if !MatchPaths(glob, filters.paths, filters.pathsIgnore, files) then (false, "path filters do not match changed files", Exact)
      else (true, "", event.fidelity)
  }

  /** A branch passes if the included patterns pick it or, without any, the ignored ones do not. */
  ghost predicate BranchPasses(glob: Glob, filters: Filters, branch: string)
    requires filters.Filters?
  {
    && (filters.branches != [] ==> Picks(glob, filters.branches, branch))
    && (filters.branches == [] && filters.branchesIgnore != [] ==> !Picks(glob, filters.branchesIgnore, branch))
  }

  /** Without path filters nothing is asked; else some changed file is picked, or is not picked to be ignored. */
  ghost predicate FilesPass(glob: Glob, filters: Filters, files: seq<string>)
    requires filters.Filters?
  {
    || (filters.paths == [] && filters.pathsIgnore == [])
    || (exists file | file in files :: filters.paths != [] && Picks(glob, filters.paths, file))
    || (exists file | file in files :: filters.pathsIgnore != [] && !Picks(glob, filters.pathsIgnore, file))
  }

  /** A push is for tags only if tags are filtered and branches are not. */
  predicate TagsOnly(filters: Filters, event: Event)
    requires filters.Filters?
  {
    event.name == "push" && (filters.tags != [] || filters.tagsIgnore != []) && filters.branches == [] && filters.branchesIgnore == []
  }

  lemma FilesPassExactly(glob: Glob, filters: Filters, files: seq<string>)
    requires filters.Filters?
    ensures MatchPaths(glob, filters.paths, filters.pathsIgnore, files) <==> FilesPass(glob, filters, files)
  {
    forall file ensures Selects(glob, filters.paths, filters.pathsIgnore, file) <==>
                        || (filters.paths != [] && Picks(glob, filters.paths, file))
                        || (filters.pathsIgnore != [] && !Picks(glob, filters.pathsIgnore, file))
    {
      PicksExactly(glob, filters.paths, file);
      PicksExactly(glob, filters.pathsIgnore, file);
    }
    if file :| file in files && Selects(glob, filters.paths, filters.pathsIgnore, file) {
      var k :| 0 <= k < |files| && files[k] == file;
      assert Selects(glob, filters.paths, filters.pathsIgnore, files[k]);
    }
  }

  /**
   Whether an event triggers a workflow, and the reason it does not. Pull requests are filtered by the
   branch they go into, every other event by the branch it comes from.
   */
  lemma TriggerExactly(glob: Glob, handled: seq<string>, filters: Filters, event: Event, files: seq<string>)
    ensures var branch := if event.name in {"pull_request", "pull_request_target"} then event.baseRef else event.headRef;
            var (triggered, reason, fidelity) := MatchesEvent(glob, handled, filters, event, files);
            && (triggered <==> event.name in handled && (filters.Filters? ==>
                  !TagsOnly(filters, event) && BranchPasses(glob, filters, branch) && FilesPass(glob, filters, files)))
            && (triggered ==> reason == "" && fidelity == event.fidelity)
            && (!triggered ==> fidelity == Exact)
            && (event.name !in handled ==> reason == "workflow does not handle " + event.name)
            && (event.name in handled && !triggered ==>
                  if TagsOnly(filters, event) then reason == "workflow only handles tag pushes"
                  else if !BranchPasses(glob, filters, branch) then reason == "branch filters do not match " + branch
                  else reason == "path filters do not match changed files")
  {
    if filters.Filters? {
      var branch := if event.name in {"pull_request", "pull_request_target"} then event.baseRef else event.headRef;
      PicksExactly(glob, filters.branches, branch);
      PicksExactly(glob, filters.branchesIgnore, branch);
      FilesPassExactly(glob, filters, files);
    }
  }

  /** More changed files never un-trigger a workflow. */
  lemma MoreFilesNeverUntrigger(glob: Glob, handled: seq<string>, filters: Filters, event: Event, files: seq<string>, more: seq<string>)
    requires forall file | file in files :: file in more
    requires MatchesEvent(glob, handled, filters, event, files).0
    ensures MatchesEvent(glob, handled, filters, event, more) == MatchesEvent(glob, handled, filters, event, files)
  {
    if filters.Filters? && AnySelects(glob, filters.paths, filters.pathsIgnore, files) {
      var k :| 0 <= k < |files| && Selects(glob, filters.paths, filters.pathsIgnore, files[k]);
      assert files[k] in more;
      var m :| 0 <= m < |more| && more[m] == files[k];
      assert Selects(glob, filters.paths, filters.pathsIgnore, more[m]);
    }
  }

  /**
   Among changed files, order and repetition do not matter, and a workflow filtered by paths is
   triggered by a set of files exactly when it is triggered by one of them alone.
   */
  lemma TriggeredByOneFile(glob: Glob, handled: seq<string>, filters: Filters, event: Event, files: seq<string>)
    requires filters.Filters? && (filters.paths != [] || filters.pathsIgnore != [])
    ensures MatchesEvent(glob, handled, filters, event, files).0 <==>
            exists k | 0 <= k < |files| :: MatchesEvent(glob, handled, filters, event, [files[k]]).0
  {
    forall k | 0 <= k < |files|
      ensures AnySelects(glob, filters.paths, filters.pathsIgnore, [files[k]]) <==> Selects(glob, filters.paths, filters.pathsIgnore, files[k])
    {
      var one := [files[k]];
      assert AnySelects(glob, filters.paths, filters.pathsIgnore, one) <==>
             exists m | 0 <= m < |one| :: Selects(glob, filters.paths, filters.pathsIgnore, one[m]);
      assert one[0] == files[k];
    }
  }
}
