/** get_valid_colleges (app.py:45-71): the colleges whose round-1 or round-2
    cutoff, for some requested branch, lies in the rank window. */
module CollegeLookup {
  import opened Wrappers
  import opened Collections
  import opened CutoffTables
  import opened BranchResolution
  import opened RankWindows

  /** The mask `(round >= rank_low) & (round <= rank_high)` on one cell:
      a NaN cell compares false both ways, so None never qualifies. */
  predicate InWindow(cell: Option<int>, w: Window) {
    cell.Some? && w.low <= cell.value <= w.high
  }

  /** `set(round[mask].index)`: the columns of row `row` whose cutoff is in the window. */
  function QualifyingColleges(t: Table, row: Label, w: Window): set<College> {
    set c | c in t.colleges && InWindow(Cutoff(t, row, c), w)
  }

  /** `df_cat2.loc[branch]` is reached only once the branch has resolved
      against round 1; it raises unless the category has a round-2 table
      (`t2` is what `.get` returned) holding that label as a row. An
      unresolved branch never touches round 2. */
  predicate Round2HasLabel(t1: Table, t2: Option<Table>, branch: Label) {
    match Resolve(t1.labels, branch)
    case None => true
    case Some(row) => t2.Some? && row in t2.value.labels
  }

  predicate Round2Resolvable(t1: Table, t2: Option<Table>, branches: seq<Label>) {
    forall i :: 0 <= i < |branches| ==> Round2HasLabel(t1, t2, branches[i])
  }

  /** Reference reading of "college `c` qualifies through requested branch
      `branch`": the branch resolves, and the college has a numeric cutoff in
      the window in round 1 or in round 2. */
  predicate QualifiedBy(t1: Table, t2: Option<Table>, branch: Label, w: Window, c: College) {
    match Resolve(t1.labels, branch)
    case None => false
    case Some(row) =>
      (c in t1.colleges && InWindow(Cutoff(t1, row, c), w)) ||
      (t2.Some? && c in t2.value.colleges && InWindow(Cutoff(t2.value, row, c), w))
  }

  /** `valid_colleges` for one requested branch: empty when it does not resolve. */
  function BranchColleges(t1: Table, t2: Option<Table>, branch: Label, w: Window): set<College>
    requires Round2HasLabel(t1, t2, branch)
  {
    match Resolve(t1.labels, branch)
    case None => {}
    case Some(row) => QualifyingColleges(t1, row, w) + QualifyingColleges(t2.value, row, w)
  }

  /** `all_valid_colleges` after the loop has processed `branches`. */
  function ValidColleges(t1: Table, t2: Option<Table>, branches: seq<Label>, w: Window): set<College>
    requires Round2Resolvable(t1, t2, branches)
  {
    if branches == [] then {}
    else
      var last := |branches| - 1;
      ValidColleges(t1, t2, branches[..last], w) + BranchColleges(t1, t2, branches[last], w)
  }

  /** Soundness: every returned college qualifies through some requested branch. */
  lemma {:induction false} ValidCollegesSound(t1: Table, t2: Option<Table>, branches: seq<Label>, w: Window, c: College)
    requires Round2Resolvable(t1, t2, branches)
    requires c in ValidColleges(t1, t2, branches, w)
    ensures exists i :: 0 <= i < |branches| && QualifiedBy(t1, t2, branches[i], w, c)
  {
    var last := |branches| - 1;
    var prefix := branches[..last];
    if c in ValidColleges(t1, t2, prefix, w) {
      ValidCollegesSound(t1, t2, prefix, w, c);
      var i :| 0 <= i < |prefix| && QualifiedBy(t1, t2, prefix[i], w, c);
      assert branches[i] == prefix[i];
    } else {
      assert QualifiedBy(t1, t2, branches[last], w, c);
    }
  }

  /** Completeness: a college that qualifies through a requested branch is returned. */
  lemma {:induction false} ValidCollegesComplete(t1: Table, t2: Option<Table>, branches: seq<Label>, w: Window, i: nat, c: College)
    requires Round2Resolvable(t1, t2, branches)
    requires i < |branches| && QualifiedBy(t1, t2, branches[i], w, c)
    ensures c in ValidColleges(t1, t2, branches, w)
  {
    var last := |branches| - 1;
    if i < last {
      var prefix := branches[..last];
      assert prefix[i] == branches[i];
      ValidCollegesComplete(t1, t2, prefix, w, i, c);
    }
  }

  /** A window with low > high admits nothing. */
  lemma EmptyWindowQualifiesNothing(t1: Table, t2: Option<Table>, branches: seq<Label>, w: Window)
    requires Round2Resolvable(t1, t2, branches)
    requires w.low > w.high
    ensures ValidColleges(t1, t2, branches, w) == {}
  {
    forall c | c in ValidColleges(t1, t2, branches, w) ensures false {
      ValidCollegesSound(t1, t2, branches, w, c);
    }
  }

  /** A college whose cells in the resolved rows of the requested branches
      are missing or non-numeric in both rounds is never returned. */
  lemma MissingCutoffsNeverQualify(t1: Table, t2: Option<Table>, branches: seq<Label>, w: Window, c: College)
    requires Round2Resolvable(t1, t2, branches)
    requires forall i :: 0 <= i < |branches| && Resolve(t1.labels, branches[i]).Some? ==>
      Cutoff(t1, Resolve(t1.labels, branches[i]).value, c).None? &&
      (t2.None? || Cutoff(t2.value, Resolve(t1.labels, branches[i]).value, c).None?)
    ensures c !in ValidColleges(t1, t2, branches, w)
  {
    if c in ValidColleges(t1, t2, branches, w) {
      ValidCollegesSound(t1, t2, branches, w, c);
    }
  }

  /** Requesting more branches never loses a college: the result depends only
      on which resolving branches are requested, not on their order or repetition. */
  lemma ValidCollegesGrow(t1: Table, t2: Option<Table>, a: seq<Label>, b: seq<Label>, w: Window)
    requires Round2Resolvable(t1, t2, a) && Round2Resolvable(t1, t2, b)
    requires forall j :: 0 <= j < |a| ==> Resolve(t1.labels, a[j]).None? || a[j] in b
    ensures ValidColleges(t1, t2, a, w) <= ValidColleges(t1, t2, b, w)
  {
    forall c | c in ValidColleges(t1, t2, a, w) ensures c in ValidColleges(t1, t2, b, w) {
      ValidCollegesSound(t1, t2, a, w, c);
      var j :| 0 <= j < |a| && QualifiedBy(t1, t2, a[j], w, c);
      var k :| 0 <= k < |b| && b[k] == a[j];
      ValidCollegesComplete(t1, t2, b, w, k, c);
    }
  }

  /** A requested branch that does not resolve contributes nothing and does not
      stop the other branches from being processed: dropping it leaves the
      result unchanged. */
  lemma UnresolvedBranchContributesNothing(t1: Table, t2: Option<Table>, branches: seq<Label>, w: Window, i: nat)
    requires Round2Resolvable(t1, t2, branches)
    requires i < |branches| && Resolve(t1.labels, branches[i]).None?
    ensures var rest := branches[..i] + branches[i + 1..];
      Round2Resolvable(t1, t2, rest) &&
      ValidColleges(t1, t2, rest, w) == ValidColleges(t1, t2, branches, w)
  {
    var rest := branches[..i] + branches[i + 1..];
    forall j | 0 <= j < |rest| ensures rest[j] in branches && Round2HasLabel(t1, t2, rest[j]) {
      var k := if j < i then j else j + 1;
      assert rest[j] == branches[k];
    }
    forall j | 0 <= j < |branches| ensures Resolve(t1.labels, branches[j]).None? || branches[j] in rest {
      if j < i {
        assert branches[j] == rest[j];
      } else if j > i {
        assert branches[j] == rest[j - 1];
      }
    }
    ValidCollegesGrow(t1, t2, rest, branches, w);
    ValidCollegesGrow(t1, t2, branches, rest, w);
  }

  /** `list(all_valid_colleges)`: the elements of a set, each once, in an
      order the model leaves open. */
  method SetToList(s: set<College>) returns (xs: seq<College>)
    ensures NoDuplicates(xs)
    ensures forall c :: c in xs <==> c in s
  {
    xs := [];
    var rest := s;
    while rest != {}
      invariant rest <= s
      invariant NoDuplicates(xs)
      invariant forall c :: c in xs <==> c in s && c !in rest
      decreases rest
    {
      var c :| c in rest;
      xs := xs + [c];
      rest := rest - {c};
    }
  }

  /** get_valid_colleges: the loop over the requested branches accumulates
      each resolved branch's qualifying colleges of both rounds. The round-1
      table is read only inside the loop, so a category missing from round 1
      raises only when some branch is requested; the round-2 table is read
      only for a resolved branch, so a category or label missing from round 2
      raises only then. Both failures are preconditions here. */
  method GetValidColleges(round1: Dataset, round2: Dataset, category: Category, selected: seq<Label>,
                          rank: int, rankLow: Option<int>, rankHigh: Option<int>)
    returns (colleges: seq<College>)
    requires category in round1 || selected == []
    requires category in round1 ==> Round2Resolvable(round1[category], TableFor(round2, category), selected)
    ensures NoDuplicates(colleges)
    ensures forall c :: c in colleges <==>
      (category in round1 &&
       c in ValidColleges(round1[category], TableFor(round2, category), selected, DefaultWindow(rank, rankLow, rankHigh)))
  {
    var w := DefaultWindow(rank, rankLow, rankHigh);
    var t1, t2 := TableFor(round1, category), TableFor(round2, category);
    var all: set<College> := {};
    for k := 0 to |selected|
      invariant t1.Some? ==> all == ValidColleges(t1.value, t2, selected[..k], w)
      invariant t1.None? ==> all == {}
    {
      assert selected[..k + 1][..k] == selected[..k];
      var resolved := Resolve(t1.value.labels, selected[k]);
      if resolved.None? {
        continue;
      }
      var row := resolved.value;
      var valid := QualifyingColleges(t1.value, row, w) + QualifyingColleges(t2.value, row, w);
      all := all + valid;
    }
    assert selected[..|selected|] == selected;
    colleges := SetToList(all);
  }

  /** A category with no round-2 table raises nothing as long as none of the
      requested branches resolves: no round-2 row is ever read, and nothing
      qualifies. */
  lemma UnresolvedBranchesNeedNoRound2(t1: Table, branches: seq<Label>, w: Window)
    requires forall i :: 0 <= i < |branches| ==> Resolve(t1.labels, branches[i]).None?
    ensures Round2Resolvable(t1, None, branches)
    ensures ValidColleges(t1, None, branches, w) == {}
  {
    forall c | c in ValidColleges(t1, None, branches, w) ensures false {
      ValidCollegesSound(t1, None, branches, w, c);
    }
  }

  /** The worked scenario: round 1 has CollegeA 4500 and CollegeB 7000 for
      "CS Computers", round 2 has CollegeA 4600 and CollegeC 5900; rank 5000
      with the default window [4000, 6000] yields exactly CollegeA and CollegeC. */
  lemma ScenarioCollegeAandC()
    ensures var t1 := Table(["CS Computers"], {"CollegeA", "CollegeB"},
                            map[("CS Computers", "CollegeA") := Some(4500), ("CS Computers", "CollegeB") := Some(7000)]);
            var t2 := Table(["CS Computers"], {"CollegeA", "CollegeC"},
                            map[("CS Computers", "CollegeA") := Some(4600), ("CS Computers", "CollegeC") := Some(5900)]);
            Round2Resolvable(t1, Some(t2), ["CS Computers"]) &&
            ValidColleges(t1, Some(t2), ["CS Computers"], DefaultWindow(5000, None, None)) == {"CollegeA", "CollegeC"}
  {
    var t1 := Table(["CS Computers"], {"CollegeA", "CollegeB"},
                    map[("CS Computers", "CollegeA") := Some(4500), ("CS Computers", "CollegeB") := Some(7000)]);
    var t2 := Table(["CS Computers"], {"CollegeA", "CollegeC"},
                    map[("CS Computers", "CollegeA") := Some(4600), ("CS Computers", "CollegeC") := Some(5900)]);
    var w := DefaultWindow(5000, None, None);
    assert ["CS Computers"][..0] == [];
    assert QualifyingColleges(t1, "CS Computers", w) == {"CollegeA"};
    assert QualifyingColleges(t2, "CS Computers", w) == {"CollegeA", "CollegeC"};
  }
}
