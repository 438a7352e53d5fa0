/** The loop that merges the per-branch tables (app.py:128-135): while the
    accumulated table has no rows, the next branch's table replaces it;
    afterwards each branch's table is outer-joined onto it. */
module CombinedTable {
  import opened Wrappers
  import opened Collections
  import opened CutoffTables
  import opened BranchResolution
  import opened CollegeLookup
  import opened ResultFrames
  import opened BranchRanks
  import opened RankWindows

  ghost predicate AllValid(blocks: seq<Frame>) {
    forall k :: 0 <= k < |blocks| ==> Valid(blocks[k])
  }

  /** `combined_df` after the loop has seen `blocks`, or the error pandas raises. */
  function CombineAll(blocks: seq<Frame>): (r: Result<Frame, JoinError>)
    requires AllValid(blocks)
    ensures r.Ok? ==> Valid(r.value)
  {
    if blocks == [] then Ok(EmptyFrame)
    else
      var last := |blocks| - 1;
      match CombineAll(blocks[..last])
      case Err(e) => Err(e)
      case Ok(acc) => if IsEmpty(acc) then Ok(blocks[last]) else Join(acc, blocks[last])
  }

  /** The block that seeds the final table: the first block with rows, or the
      last block when none has rows (every earlier one was replaced). */
  function Seed(blocks: seq<Frame>): (s: nat)
    ensures blocks != [] ==> s < |blocks|
    ensures blocks == [] ==> s == 0
    ensures forall k :: 0 <= k < s && k < |blocks| ==> IsEmpty(blocks[k])
    ensures s + 1 < |blocks| ==> !IsEmpty(blocks[s])
  {
    if |blocks| <= 1 then 0
    else if !IsEmpty(blocks[0]) then 0
    else 1 + Seed(blocks[1..])
  }

  /** The column names of `blocks`, block after block. */
  function ColumnsOf(blocks: seq<Frame>): seq<ColumnName> {
    if blocks == [] then [] else ColumnsOf(blocks[..|blocks| - 1]) + blocks[|blocks| - 1].columns
  }

  /** Seed of a sequence extended by one block, when the shorter one already has rows. */
  lemma SeedOfLonger(blocks: seq<Frame>, k: nat)
    requires k + 1 < |blocks| && !IsEmpty(blocks[k])
    ensures Seed(blocks) == Seed(blocks[..|blocks| - 1])
  {
    var prefix := blocks[..|blocks| - 1];
    var s, s' := Seed(blocks), Seed(prefix);
    assert prefix[k] == blocks[k];
    assert s <= k;
    assert s' <= k;
    assert !IsEmpty(blocks[s]);
    assert prefix[s'] == blocks[s'];
    assert !IsEmpty(prefix[s']);
    assert prefix[s] == blocks[s];
  }

  /** The union of the row sets of `blocks`. */
  function RowsOf(blocks: seq<Frame>): set<College> {
    if blocks == [] then {} else RowsOf(blocks[..|blocks| - 1]) + blocks[|blocks| - 1].index
  }

  lemma {:induction false} RowsOfIsUnion(blocks: seq<Frame>, c: College)
    ensures c in RowsOf(blocks) <==> exists k :: 0 <= k < |blocks| && c in blocks[k].index
  {
    if blocks != [] {
      var last := |blocks| - 1;
      var prefix := blocks[..last];
      RowsOfIsUnion(prefix, c);
      if c in RowsOf(prefix) {
        var k :| 0 <= k < |prefix| && c in prefix[k].index;
        assert blocks[k] == prefix[k];
      }
      if k :| 0 <= k < last && c in blocks[k].index {
        assert prefix[k] == blocks[k];
      }
    }
  }

  /** The rows of the combined table are the union of the rows of the
      per-branch tables (a dropped seed block had no rows to lose). */
  lemma {:induction false} CombinedRowsAreUnion(blocks: seq<Frame>)
    requires AllValid(blocks) && CombineAll(blocks).Ok?
    ensures CombineAll(blocks).value.index == RowsOf(blocks)
  {
    if blocks != [] {
      CombinedRowsAreUnion(blocks[..|blocks| - 1]);
    }
  }

  /** When the blocks before the last left the table without rows, the last
      block seeds the table. */
  lemma SeedAfterEmptyPrefix(blocks: seq<Frame>)
    requires blocks != [] && AllValid(blocks)
    requires CombineAll(blocks[..|blocks| - 1]).Ok? && IsEmpty(CombineAll(blocks[..|blocks| - 1]).value)
    ensures Seed(blocks) == |blocks| - 1
  {
    var prefix := blocks[..|blocks| - 1];
    CombinedRowsAreUnion(prefix);
    forall k | 0 <= k < |prefix| ensures IsEmpty(blocks[k]) {
      assert blocks[k] == prefix[k];
      forall c | c in prefix[k].index ensures false {
        RowsOfIsUnion(prefix, c);
      }
    }
  }

  /** When the blocks before the last left the table with rows, the seed lies among them. */
  lemma SeedBeforeNonEmptyPrefix(blocks: seq<Frame>)
    requires blocks != [] && AllValid(blocks)
    requires CombineAll(blocks[..|blocks| - 1]).Ok? && !IsEmpty(CombineAll(blocks[..|blocks| - 1]).value)
    ensures Seed(blocks) == Seed(blocks[..|blocks| - 1]) < |blocks| - 1
  {
    var prefix := blocks[..|blocks| - 1];
    CombinedRowsAreUnion(prefix);
    var c :| c in CombineAll(prefix).value.index;
    RowsOfIsUnion(prefix, c);
    var k :| 0 <= k < |prefix| && c in prefix[k].index;
    assert blocks[k] == prefix[k];
    SeedOfLonger(blocks, k);
  }

  lemma {:induction false} ColumnsOfContains(blocks: seq<Frame>, k: nat, col: ColumnName)
    requires k < |blocks| && col in blocks[k].columns
    ensures col in ColumnsOf(blocks)
  {
    var last := |blocks| - 1;
    if k < last {
      ColumnsOfContains(blocks[..last], k, col);
    }
  }

  /** The columns of the combined table are those of the seed block and of
      every block after it, in the order the branches were requested. */
  lemma {:induction false} CombinedColumns(blocks: seq<Frame>)
    requires AllValid(blocks) && CombineAll(blocks).Ok?
    ensures CombineAll(blocks).value.columns == ColumnsOf(blocks[Seed(blocks)..])
  {
    if blocks != [] {
      var last := |blocks| - 1;
      var prefix := blocks[..last];
      var acc := CombineAll(prefix).value;
      if IsEmpty(acc) {
        SeedAfterEmptyPrefix(blocks);
        assert blocks[last..][..0] == [];
      } else {
        CombinedColumns(prefix);
        SeedBeforeNonEmptyPrefix(blocks);
        SeedColumnsStep(blocks);
      }
    }
  }

  /** A column of a block at or after the seed is a column of the combined table. */
  lemma ColumnKept(blocks: seq<Frame>, k: nat, col: ColumnName)
    requires AllValid(blocks) && CombineAll(blocks).Ok?
    requires Seed(blocks) <= k < |blocks| && col in blocks[k].columns
    ensures col in CombineAll(blocks).value.columns
  {
    CombinedColumns(blocks);
    ColumnsOfContains(blocks[Seed(blocks)..], k - Seed(blocks), col);
  }

  /** A block's cell is NaN for a college the combined table lacks. */
  lemma CellOutsideRows(blocks: seq<Frame>, k: nat, col: ColumnName, c: College)
    requires AllValid(blocks) && CombineAll(blocks).Ok?
    requires k < |blocks| && c !in CombineAll(blocks).value.index
    ensures Cell(blocks[k], col, c) == None
  {
    CombinedRowsAreUnion(blocks);
    RowsOfIsUnion(blocks, c);
    assert c !in blocks[k].index;
  }

  /** Every cell of the combined table is the cell of the block that owns its
      column, and NaN where that block has no such row. */
  lemma {:induction false} CombinedCell(blocks: seq<Frame>, k: nat, col: ColumnName, c: College)
    requires AllValid(blocks) && CombineAll(blocks).Ok?
    requires Seed(blocks) <= k < |blocks| && col in blocks[k].columns
    requires c in CombineAll(blocks).value.index
    ensures Cell(CombineAll(blocks).value, col, c) == Cell(blocks[k], col, c)
  {
    var last := |blocks| - 1;
    var prefix := blocks[..last];
    var acc := CombineAll(prefix).value;
    if IsEmpty(acc) {
      SeedAfterEmptyPrefix(blocks);
      assert CombineAll(blocks) == Ok(blocks[last]);
    } else {
      SeedBeforeNonEmptyPrefix(blocks);
      if k < last {
        assert prefix[k] == blocks[k];
        ColumnKept(prefix, k, col);
        CellFromAccumulated(blocks, col, c);
        if c in acc.index {
          CombinedCell(prefix, k, col, c);
        } else {
          CellOutsideRows(prefix, k, col, c);
          assert Cell(acc, col, c) == None;
        }
      } else {
        CellFromLastBlock(blocks, col, c);
      }
    }
  }

  /** Once the accumulated table has rows, a cell of one of its columns
      survives the join with the last block unchanged. */
  lemma CellFromAccumulated(blocks: seq<Frame>, col: ColumnName, c: College)
    requires AllValid(blocks) && CombineAll(blocks).Ok? && blocks != []
    requires CombineAll(blocks[..|blocks| - 1]).Ok? && !IsEmpty(CombineAll(blocks[..|blocks| - 1]).value)
    requires col in CombineAll(blocks[..|blocks| - 1]).value.columns
    requires c in CombineAll(blocks).value.index
    ensures Cell(CombineAll(blocks).value, col, c) == Cell(CombineAll(blocks[..|blocks| - 1]).value, col, c)
  {
    var last := |blocks| - 1;
    var acc := CombineAll(blocks[..last]).value;
    assert Join(acc, blocks[last]) == CombineAll(blocks);
    JoinCells(acc, blocks[last], col, c);
  }

  /** Once the accumulated table has rows, a cell of a column of the last
      block is taken from that block. */
  lemma CellFromLastBlock(blocks: seq<Frame>, col: ColumnName, c: College)
    requires AllValid(blocks) && CombineAll(blocks).Ok? && blocks != []
    requires CombineAll(blocks[..|blocks| - 1]).Ok? && !IsEmpty(CombineAll(blocks[..|blocks| - 1]).value)
    requires col in blocks[|blocks| - 1].columns
    requires c in CombineAll(blocks).value.index
    ensures Cell(CombineAll(blocks).value, col, c) == Cell(blocks[|blocks| - 1], col, c)
  {
    var last := |blocks| - 1;
    var acc := CombineAll(blocks[..last]).value;
    assert Join(acc, blocks[last]) == CombineAll(blocks);
    JoinCells(acc, blocks[last], col, c);
    assert Disjoint(acc.columns, blocks[last].columns);
  }

  /** Once the seed lies before the last block, the kept columns grow by the last block's. */
  lemma SeedColumnsStep(blocks: seq<Frame>)
    requires blocks != []
    requires Seed(blocks) == Seed(blocks[..|blocks| - 1]) < |blocks| - 1
    ensures ColumnsOf(blocks[Seed(blocks)..]) ==
      ColumnsOf(blocks[..|blocks| - 1][Seed(blocks)..]) + blocks[|blocks| - 1].columns
  {
    var s, last := Seed(blocks), |blocks| - 1;
    assert blocks[s..][..|blocks[s..]| - 1] == blocks[..last][s..];
  }

  /** A join only happens after some block brought rows. */
  lemma ErrorNeedsRows(blocks: seq<Frame>) returns (k: nat)
    requires AllValid(blocks) && CombineAll(blocks).Err?
    ensures k < |blocks| && !IsEmpty(blocks[k])
  {
    if forall j :: 0 <= j < |blocks| ==> IsEmpty(blocks[j]) {
      NeverJoinedWhileEmpty(blocks);
    }
    k :| 0 <= k < |blocks| && !IsEmpty(blocks[k]);
  }

  /** The loop raises exactly when two of the columns it would keep share a name. */
  lemma {:induction false} CombineSucceedsIff(blocks: seq<Frame>)
    requires AllValid(blocks)
    ensures CombineAll(blocks).Ok? <==> NoDuplicates(ColumnsOf(blocks[Seed(blocks)..]))
  {
    if blocks != [] {
      var last := |blocks| - 1;
      var prefix := blocks[..last];
      CombineSucceedsIff(prefix);
      match CombineAll(prefix)
      case Err(_) =>
        var k := ErrorNeedsRows(prefix);
        assert blocks[k] == prefix[k];
        SeedOfLonger(blocks, k);
        SeedColumnsStep(blocks);
        NoDuplicatesConcat(ColumnsOf(prefix[Seed(blocks)..]), blocks[last].columns);
      case Ok(acc) =>
        if IsEmpty(acc) {
          SeedAfterEmptyPrefix(blocks);
          assert blocks[last..][..0] == [];
        } else {
          CombinedColumns(prefix);
          SeedBeforeNonEmptyPrefix(blocks);
          SeedColumnsStep(blocks);
          NoDuplicatesConcat(acc.columns, blocks[last].columns);
        }
    }
  }

  /** While no block has rows, the accumulated table is just the latest block. */
  lemma {:induction false} NeverJoinedWhileEmpty(blocks: seq<Frame>)
    requires AllValid(blocks)
    requires forall k :: 0 <= k < |blocks| ==> IsEmpty(blocks[k])
    ensures CombineAll(blocks).Ok? && IsEmpty(CombineAll(blocks).value)
  {
    if blocks != [] {
      NeverJoinedWhileEmpty(blocks[..|blocks| - 1]);
    }
  }

  /** Once a join has raised, the loop does not come back: the error is the outcome. */
  lemma {:induction false} ErrorIsFinal(blocks: seq<Frame>, n: nat)
    requires AllValid(blocks) && n <= |blocks|
    requires CombineAll(blocks[..n]).Err?
    ensures CombineAll(blocks) == CombineAll(blocks[..n])
  {
    if n < |blocks| {
      var last := |blocks| - 1;
      assert blocks[..last][..n] == blocks[..n];
      ErrorIsFinal(blocks[..last], n);
    } else {
      assert blocks[..n] == blocks;
    }
  }

  /** One turn of the loop: replace a rowless table, otherwise join. */
  lemma CombineStep(blocks: seq<Frame>, k: nat)
    requires AllValid(blocks) && k < |blocks|
    ensures AllValid(blocks[..k]) && AllValid(blocks[..k + 1])
    ensures CombineAll(blocks[..k + 1]) ==
      match CombineAll(blocks[..k])
      case Err(e) => Err(e)
      case Ok(acc) => if IsEmpty(acc) then Ok(blocks[k]) else Join(acc, blocks[k])
  {
    assert blocks[..k + 1][..k] == blocks[..k];
  }

  /** The per-branch tables, one per requested branch, in request order. */
  function Blocks(round1: Dataset, round2: Dataset, category: Category,
                  selected: seq<Label>, colleges: seq<College>): seq<Frame>
    requires category in round1
    requires Round2Resolvable(round1[category], TableFor(round2, category), selected)
  {
    seq(|selected|, k requires 0 <= k < |selected| =>
      GetBranchRanksForColleges(round1, round2, category, selected[k], colleges))
  }

  /** The combining loop itself. */
  method CombineBranchRanks(round1: Dataset, round2: Dataset, category: Category,
                            selected: seq<Label>, colleges: seq<College>)
    returns (r: Result<Frame, JoinError>)
    requires category in round1
    requires Round2Resolvable(round1[category], TableFor(round2, category), selected)
    ensures AllValid(Blocks(round1, round2, category, selected, colleges))
    ensures r == CombineAll(Blocks(round1, round2, category, selected, colleges))
  {
    ghost var blocks := Blocks(round1, round2, category, selected, colleges);
    assert AllValid(blocks);
    var combined := EmptyFrame;
    for k := 0 to |selected|
      invariant AllValid(blocks)
      invariant CombineAll(blocks[..k]) == Ok(combined)
    {
      var block := GetBranchRanksForColleges(round1, round2, category, selected[k], colleges);
      assert block == blocks[k];
      CombineStep(blocks, k);
      if IsEmpty(combined) {
        combined := block;
      } else {
        var joined := Join(combined, block);
        if joined.Err? {
          ErrorIsFinal(blocks, k + 1);
          return Err(joined.error);
        }
        combined := joined.value;
      }
    }
    assert blocks[..|selected|] == blocks;
    r := Ok(combined);
  }

  /** No column name occurs in two different blocks. */
  predicate ColumnsPairwiseDisjoint(blocks: seq<Frame>) {
    forall i, j :: 0 <= i < j < |blocks| ==> Disjoint(blocks[i].columns, blocks[j].columns)
  }

  /** Column lists that are each duplicate-free and pairwise disjoint
      concatenate without duplicates. */
  lemma {:induction false} ColumnsOfNoDuplicates(blocks: seq<Frame>)
    requires forall k :: 0 <= k < |blocks| ==> NoDuplicates(blocks[k].columns)
    requires ColumnsPairwiseDisjoint(blocks)
    ensures NoDuplicates(ColumnsOf(blocks))
  {
    if blocks != [] {
      var last := |blocks| - 1;
      var prefix := blocks[..last];
      ColumnsOfNoDuplicates(prefix);
      forall col | col in ColumnsOf(prefix) ensures col !in blocks[last].columns {
        var k := ColumnsOfOwner(prefix, col);
        assert prefix[k] == blocks[k];
        assert Disjoint(blocks[k].columns, blocks[last].columns);
      }
      NoDuplicatesConcat(ColumnsOf(prefix), blocks[last].columns);
    }
  }

  /** The block a column of ColumnsOf comes from. */
  lemma {:induction false} ColumnsOfOwner(blocks: seq<Frame>, col: ColumnName) returns (k: nat)
    requires col in ColumnsOf(blocks)
    ensures k < |blocks| && col in blocks[k].columns
  {
    var last := |blocks| - 1;
    if col in blocks[last].columns {
      k := last;
    } else {
      k := ColumnsOfOwner(blocks[..last], col);
    }
  }

  /** The tables of two requested branches that resolve to different labels
      share no column name. */
  lemma BlockColumnsDisjoint(round1: Dataset, round2: Dataset, category: Category,
                             a: Label, b: Label, colleges: seq<College>, col: ColumnName)
    requires category in round1
    requires Round2HasLabel(round1[category], TableFor(round2, category), a)
    requires Round2HasLabel(round1[category], TableFor(round2, category), b)
    requires Resolve(round1[category].labels, a).Some? ==>
      Resolve(round1[category].labels, a) != Resolve(round1[category].labels, b)
    requires col in GetBranchRanksForColleges(round1, round2, category, a, colleges).columns
    ensures col !in GetBranchRanksForColleges(round1, round2, category, b, colleges).columns
  {
    var ra, rb := Resolve(round1[category].labels, a), Resolve(round1[category].labels, b);
    if rb.Some? {
      ColumnNamesDistinct(ra.value, rb.value);
      ColumnNamesDistinct(rb.value, ra.value);
    }
  }

  lemma BlocksColumnsDisjoint(round1: Dataset, round2: Dataset, category: Category,
                              selected: seq<Label>, colleges: seq<College>, p: nat, q: nat, col: ColumnName)
    requires category in round1
    requires Round2Resolvable(round1[category], TableFor(round2, category), selected)
    requires ResolveToDistinctLabels(round1[category].labels, selected)
    requires p < q < |selected|
    requires col in Blocks(round1, round2, category, selected, colleges)[p].columns
    ensures col !in Blocks(round1, round2, category, selected, colleges)[q].columns
  {
    BlockColumnsDisjoint(round1, round2, category, selected[p], selected[q], colleges, col);
  }

  /** No two requested branches resolve to the same round-1 label. */
  predicate ResolveToDistinctLabels(labels: seq<Label>, selected: seq<Label>) {
    forall i, j :: 0 <= i < j < |selected| && Resolve(labels, selected[i]).Some? ==>
      Resolve(labels, selected[i]) != Resolve(labels, selected[j])
  }

  /** Per-branch tables with pairwise disjoint column names never make the loop raise. */
  lemma DisjointColumnsCombineCleanly(blocks: seq<Frame>)
    requires AllValid(blocks)
    requires ColumnsPairwiseDisjoint(blocks)
    ensures CombineAll(blocks).Ok?
  {
    var s := Seed(blocks);
    var tail := blocks[s..];
    forall i, j | 0 <= i < j < |tail| ensures Disjoint(tail[i].columns, tail[j].columns) {
      assert tail[i] == blocks[s + i] && tail[j] == blocks[s + j];
    }
    forall k | 0 <= k < |tail| ensures NoDuplicates(tail[k].columns) {
      assert tail[k] == blocks[s + k];
    }
    ColumnsOfNoDuplicates(tail);
    CombineSucceedsIff(blocks);
  }

  /** Requested branches that resolve to distinct round-1 labels never make
      the loop raise. */
  lemma DistinctLabelsCombineCleanly(round1: Dataset, round2: Dataset, category: Category,
                                     selected: seq<Label>, colleges: seq<College>)
    requires category in round1
    requires Round2Resolvable(round1[category], TableFor(round2, category), selected)
    requires ResolveToDistinctLabels(round1[category].labels, selected)
    ensures AllValid(Blocks(round1, round2, category, selected, colleges))
    ensures CombineAll(Blocks(round1, round2, category, selected, colleges)).Ok?
  {
    var blocks := Blocks(round1, round2, category, selected, colleges);
    forall i, j | 0 <= i < j < |blocks| ensures Disjoint(blocks[i].columns, blocks[j].columns) {
      forall col | col in blocks[i].columns ensures col !in blocks[j].columns {
        BlocksColumnsDisjoint(round1, round2, category, selected, colleges, i, j, col);
      }
    }
    DisjointColumnsCombineCleanly(blocks);
  }

  /** A given college that qualifies through requested branch `i` is a row of that branch's table. */
  lemma QualifiedCollegeIsRow(round1: Dataset, round2: Dataset, category: Category,
                              selected: seq<Label>, w: Window, colleges: seq<College>, i: nat, c: College)
    requires category in round1
    requires Round2Resolvable(round1[category], TableFor(round2, category), selected)
    requires i < |selected| && QualifiedBy(round1[category], TableFor(round2, category), selected[i], w, c)
    requires c in colleges
    ensures c in Blocks(round1, round2, category, selected, colleges)[i].index
  {
    assert Round2HasLabel(round1[category], TableFor(round2, category), selected[i]);
  }

  /** Fed the qualifying colleges, the combined table has exactly those
      colleges as its rows: every qualifying college has a cutoff column in
      some resolved branch, and no other college is selected. */
  lemma CombinedRowsAreValidColleges(round1: Dataset, round2: Dataset, category: Category,
                                     selected: seq<Label>, w: Window, colleges: seq<College>)
    requires category in round1
    requires Round2Resolvable(round1[category], TableFor(round2, category), selected)
    requires forall c :: c in colleges <==> c in ValidColleges(round1[category], TableFor(round2, category), selected, w)
    requires AllValid(Blocks(round1, round2, category, selected, colleges))
    requires CombineAll(Blocks(round1, round2, category, selected, colleges)).Ok?
    ensures forall c :: c in CombineAll(Blocks(round1, round2, category, selected, colleges)).value.index <==> c in colleges
  {
    var t1, t2 := round1[category], TableFor(round2, category);
    var blocks := Blocks(round1, round2, category, selected, colleges);
    CombinedRowsAreUnion(blocks);
    forall c ensures c in RowsOf(blocks) <==> c in colleges {
      RowsOfIsUnion(blocks, c);
      if c in colleges {
        ValidCollegesSound(t1, t2, selected, w, c);
        var i :| 0 <= i < |selected| && QualifiedBy(t1, t2, selected[i], w, c);
        QualifiedCollegeIsRow(round1, round2, category, selected, w, colleges, i, c);
      }
    }
  }
}
