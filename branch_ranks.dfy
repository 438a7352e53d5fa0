/** get_branch_ranks_for_colleges (app.py:74-96): for one requested branch,
    the round-1 and round-2 cutoffs of the given colleges, as a two-column table. */
module BranchRanks {
  import opened Wrappers
  import opened Collections
  import opened CutoffTables
  import opened BranchResolution
  import opened CollegeLookup
  import opened ResultFrames

  /** The column names `f"{branch} R1"` and `f"{branch} R2"`. */
  function R1Column(row: Label): ColumnName { row + " R1" }
  function R2Column(row: Label): ColumnName { row + " R2" }

  /** Distinct resolved labels give distinct column names, and a round-1 column
      never shares its name with a round-2 column. */
  lemma ColumnNamesDistinct(a: Label, b: Label)
    ensures R1Column(a) != R2Column(b)
    ensures R1Column(a) == R1Column(b) ==> a == b
    ensures R2Column(a) == R2Column(b) ==> a == b
  {
    if |a| == |b| {
      assert R1Column(a)[|a| + 2] == '1' && R2Column(b)[|b| + 2] == '2';
    }
    if R1Column(a) == R1Column(b) {
      assert a == R1Column(a)[..|a|];
    }
    if R2Column(a) == R2Column(b) {
      assert a == R2Column(a)[..|a|];
    }
  }

  /** The cell of college `c` in the series `round.loc[round.index.intersection(colleges)]`
      after the DataFrame constructor aligned it on the union of both selections. */
  function AlignedCutoff(t: Table, row: Label, c: College): Option<int> {
    if c in t.colleges then Cutoff(t, row, c) else None
  }

  /** An unresolved branch gives `pd.DataFrame()`, without reading round 2.
      A resolved one gives the columns "<label> R1" and "<label> R2" over
      exactly the given colleges that are columns of the round-1 or round-2
      table, each cell that round's coerced cutoff (None when the college is
      not a column of that round). The round-1 table is always read, so its
      category must exist; the round-2 table is read only after resolution. */
  function GetBranchRanksForColleges(round1: Dataset, round2: Dataset, category: Category,
                                     branch: Label, colleges: seq<College>): (f: Frame)
    requires category in round1
    requires Round2HasLabel(round1[category], TableFor(round2, category), branch)
    ensures Valid(f)
    ensures var t1, t2 := round1[category], TableFor(round2, category);
      forall c :: c in f.index <==>
        c in colleges && Resolve(t1.labels, branch).Some? && (c in t1.colleges || (t2.Some? && c in t2.value.colleges))
    ensures Resolve(round1[category].labels, branch).None? ==> f == EmptyFrame
    ensures var t1, t2, r := round1[category], TableFor(round2, category), Resolve(round1[category].labels, branch);
      r.Some? ==>
        && t2.Some?
        && f.columns == [R1Column(r.value), R2Column(r.value)]
        && forall c :: c in f.index ==>
             && Cell(f, R1Column(r.value), c) == AlignedCutoff(t1, r.value, c)
             && Cell(f, R2Column(r.value), c) == AlignedCutoff(t2.value, r.value, c)
  {
    var t1, t2 := round1[category], TableFor(round2, category);
    match Resolve(t1.labels, branch)
    case None => EmptyFrame
    case Some(row) =>
      var round1Selected := map c | c in t1.colleges && c in colleges :: Cutoff(t1, row, c);
      var round2Selected := map c | c in t2.value.colleges && c in colleges :: Cutoff(t2.value, row, c);
      var index := round1Selected.Keys + round2Selected.Keys;
      ColumnNamesDistinct(row, row);
      Frame([R1Column(row), R2Column(row)], index,
            map[R1Column(row) := Align(round1Selected, index), R2Column(row) := Align(round2Selected, index)])
  }
}
