/** The per-branch result tables and the outer join that merges them
    (`DataFrame.join(..., how='outer')`, app.py:135). Row order is not
    modelled: pandas sorts the joined index and the final sort by the first
    column (app.py:139-143) depends on NaN ordering. */
module ResultFrames {
  import opened Wrappers
  import opened Collections
  import opened CutoffTables

  type ColumnName = string

  /** A result table: its column names in order, its row labels (colleges),
      and each column as a series over those rows; a NaN cell is None. */
  datatype Frame = Frame(columns: seq<ColumnName>, index: set<College>, data: map<ColumnName, map<College, Option<int>>>)

  /** A frame as pandas builds one here: distinct column names, one series per
      column, every series defined exactly on the row labels. */
  ghost predicate Valid(f: Frame) {
    && NoDuplicates(f.columns)
    && (forall col :: col in f.data <==> col in f.columns)
    && (forall col :: col in f.data ==> f.data[col].Keys == f.index)
  }

  /** `pd.DataFrame()`: no columns, no rows. */
  const EmptyFrame: Frame := Frame([], {}, map[])

  /** pandas' `.empty`. It is also true for a frame with rows but no columns;
      no such frame arises in this lookup, so only rows are looked at. */
  predicate IsEmpty(f: Frame) {
    f.index == {}
  }

  /** The value shown in row `c` of column `col`; None outside the frame. */
  function Cell(f: Frame, col: ColumnName, c: College): Option<int> {
    if col in f.data && c in f.data[col] then f.data[col][c] else None
  }

  /** Reindexing a series on a larger index fills the new rows with NaN. */
  function Align(series: map<College, Option<int>>, index: set<College>): (s: map<College, Option<int>>)
    ensures s.Keys == index
  {
    map c | c in index :: if c in series then series[c] else None
  }

  /** pandas refuses to join frames that share a column name when no suffix is given. */
  datatype JoinError = ColumnsOverlap(shared: set<ColumnName>)

  /** `left.join(right, how='outer')`: the rows of both, the columns of left
      then of right; JoinCells says what each cell holds. */
  function Join(left: Frame, right: Frame): (r: Result<Frame, JoinError>)
    requires Valid(left) && Valid(right)
    ensures r.Ok? <==> Disjoint(left.columns, right.columns)
    ensures r.Ok? ==> Valid(r.value)
    ensures r.Ok? ==> r.value.columns == left.columns + right.columns
    ensures r.Ok? ==> r.value.index == left.index + right.index
  {
    var shared := set col | col in left.columns && col in right.columns;
    if shared != {} then
      Err(ColumnsOverlap(shared))
    else
      assert forall col :: col in left.columns && col in right.columns ==> col in shared;
      var index := left.index + right.index;
      var data := map col | col in left.data.Keys + right.data.Keys ::
        if col in left.data then Align(left.data[col], index) else Align(right.data[col], index);
      NoDuplicatesConcat(left.columns, right.columns);
      Ok(Frame(left.columns + right.columns, index, data))
  }

  /** Each cell of the joined table is copied from the frame that owns its
      column, and is NaN where that frame lacks the row. */
  lemma JoinCells(left: Frame, right: Frame, col: ColumnName, c: College)
    requires Valid(left) && Valid(right) && Join(left, right).Ok?
    requires col in left.columns || col in right.columns
    requires c in Join(left, right).value.index
    ensures Cell(Join(left, right).value, col, c) ==
      if col in left.columns then Cell(left, col, c) else Cell(right, col, c)
  {
  }

  /** Joining a frame without rows or columns adds nothing (the unresolved
      branch's `pd.DataFrame()` joined onto the accumulated table). */
  lemma JoinEmptyFrame(left: Frame)
    requires Valid(left)
    ensures Join(left, EmptyFrame) == Ok(left)
  {
    var r := Join(left, EmptyFrame).value;
    assert r.columns == left.columns;
    assert r.index == left.index;
    forall col | col in left.data ensures r.data[col] == left.data[col] {
      assert r.data[col] == Align(left.data[col], left.index);
    }
    assert r.data == left.data;
  }
}
