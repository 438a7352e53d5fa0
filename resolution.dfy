/** Branch-label resolution, shared by get_valid_colleges (app.py:56-60) and
    get_branch_ranks_for_colleges (app.py:78-82): a requested branch that is a
    row label of the round-1 table is kept; otherwise the first row label, in
    table order, that contains it ignoring case is used; otherwise the branch
    is skipped. */
module BranchResolution {
  import opened Wrappers
  import opened CutoffTables

  /** The list comprehension `[b for b in index if branch.lower() in b.lower()]`:
      the labels that contain `branch`, in table order. The contract states
      membership only; that `r[0]` is the earliest match, the one use of the
      order, is MatchesStartWithFirstMatch. */
  function Matches(labels: seq<Label>, branch: Label): (r: seq<Label>)
    ensures forall b :: b in r <==> b in labels && ContainsIgnoringCase(b, branch)
    ensures |r| <= |labels|
  {
    if labels == [] then []
    else if ContainsIgnoringCase(labels[0], branch) then [labels[0]] + Matches(labels[1..], branch)
    else Matches(labels[1..], branch)
  }

  /** Reference definition of "first match": the smallest position whose label
      contains `branch`, or |labels| when none does. */
  function FirstMatchIndex(labels: seq<Label>, branch: Label): (i: nat)
    ensures i <= |labels|
    ensures i < |labels| ==> ContainsIgnoringCase(labels[i], branch)
    ensures forall j :: 0 <= j < i ==> !ContainsIgnoringCase(labels[j], branch)
  {
    if labels == [] then 0
    else if ContainsIgnoringCase(labels[0], branch) then 0
    else 1 + FirstMatchIndex(labels[1..], branch)
  }

  /** The label a requested branch stands for in a table with row labels
      `labels`, or None when the branch is skipped. */
  function Resolve(labels: seq<Label>, branch: Label): (r: Option<Label>)
    ensures branch in labels ==> r == Some(branch)
    ensures r.Some? ==> r.value in labels && ContainsIgnoringCase(r.value, branch)
    ensures r.None? <==> forall b :: b in labels ==> !ContainsIgnoringCase(b, branch)
  {
    if branch in labels then
      ContainsItself(branch);
      Some(branch)
    else
      var matches := Matches(labels, branch);
      if matches == [] then None else Some(matches[0])
  }

  /** The comprehension lists the first matching label first. */
  lemma {:induction false} MatchesStartWithFirstMatch(labels: seq<Label>, branch: Label, i: nat)
    requires i < |labels| && ContainsIgnoringCase(labels[i], branch)
    requires forall j :: 0 <= j < i ==> !ContainsIgnoringCase(labels[j], branch)
    ensures Matches(labels, branch) != [] && Matches(labels, branch)[0] == labels[i]
  {
    if i > 0 {
      assert !ContainsIgnoringCase(labels[0], branch);
      MatchesStartWithFirstMatch(labels[1..], branch, i - 1);
    }
  }

  /** Resolution is exact-match-first, then first-match in table order, then nothing. */
  lemma ResolveIsFirstMatch(labels: seq<Label>, branch: Label)
    ensures var i := FirstMatchIndex(labels, branch);
      Resolve(labels, branch) ==
        if branch in labels then Some(branch)
        else if i < |labels| then Some(labels[i])
        else None
  {
    var i := FirstMatchIndex(labels, branch);
    if branch !in labels && i < |labels| {
      MatchesStartWithFirstMatch(labels, branch, i);
    }
  }

  /** Resolving a resolved label again changes nothing. */
  lemma ResolveIdempotent(labels: seq<Label>, branch: Label)
    requires Resolve(labels, branch).Some?
    ensures Resolve(labels, Resolve(labels, branch).value) == Resolve(labels, branch)
  {
  }

  /** The scenario of a lower-case partial branch name: "computers" is not a
      label but resolves to the label "CS Computers" that contains it. */
  lemma PartialNameResolves()
    ensures Resolve(["CS Computers", "EC Electronics", "IE Info.Science"], "computers") == Some("CS Computers")
  {
    assert Lower("CS Computers") == "cs computers";
    assert Lower("computers") == "computers";
    assert OccursAt("computers", "cs computers", 3);
    MatchesStartWithFirstMatch(["CS Computers", "EC Electronics", "IE Info.Science"], "computers", 0);
  }
}
