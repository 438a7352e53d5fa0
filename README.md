# College finder lookup engine, modelled in Dafny

The college finder answers one question: given an admission category, a
candidate's rank, up to four requested branches and a rank window, which
colleges had a cutoff rank inside that window in either of two admission
rounds, and what were their cutoffs per branch? This project models the lookup
engine of `app.py` and proves what it computes:

- **Rank window** (`RankWindows`). An absent low bound becomes
  `max(0, rank - 1000)` and an absent high bound `min(rank + 1000, 200000)`.
  A supplied bound is used as given.
- **Branch resolution** (`BranchResolution`). A requested branch that is a row
  label of the round-1 category table is kept. Otherwise it becomes the first
  row label, in table order, that contains it ignoring case. If no label
  contains it, the branch is skipped.
- **Qualifying colleges** (`CollegeLookup`). `get_valid_colleges` loops over
  the requested branches and collects every college whose numeric round-1 or
  round-2 cutoff for the resolved label lies in `[low, high]`. It returns the
  set as a list with no repeats.
- **Per-branch cutoffs** (`BranchRanks`). `get_branch_ranks_for_colleges`
  builds a two-column table "<label> R1" / "<label> R2" over the given
  colleges that are columns of either round's table.
- **Combining loop** (`CombinedTable`, over the frames of `ResultFrames`).
  While the accumulated table has no rows, the next branch's table replaces
  it. After that, each branch's table is outer-joined onto it.

A category table is a sequence of row labels (branches) in table order, a set
of college columns, and a map from (label, college) to `Option<int>`. The
`Option` stands for the cell after `pd.to_numeric(..., errors='coerce')`: a
number is `Some(rank)` and an unparseable cell is `None`, like NaN. A result
table has a sequence of column names, a set of row labels (colleges), and one
series per column. "Empty" means "no rows".

The datasets are read with `.get`, so a missing category gives `None`, and
the source raises only when that `None` is used. The model keeps each such
crash as a precondition, exactly where the source would raise:
- `get_valid_colleges` reads the round-1 table inside its loop. A category
  missing from round 1 therefore raises only when some branch is requested.
  `get_branch_ranks_for_colleges` reads it unconditionally.
- The round-2 table is read only after a branch has resolved, with the label
  resolved against round 1 (app.py:56-63, app.py:78-85). The round-2 table
  is `Option<Table>` in the model. A category missing from round 2, or a
  resolved label missing from its round-2 table, raises only for a branch
  that resolved. A branch that does not resolve never touches round 2
  (`CollegeLookup.UnresolvedBranchesNeedNoRound2`).

pandas' `join` raises `ValueError` when the two frames share a column name.
The model returns `Err(ColumnsOverlap)` there. It happens only when two
requested branches resolve to the same round-1 label.

Three facts about the code that the model follows:
- A branch is resolved against the round-1 table only. The round-2 row is
  read with that same label (app.py:56-63).
- An unresolved branch yields `pd.DataFrame()`, with no columns at all
  (app.py:78-81).
- There is no explicit "category not found" check. A missing category is
  not guarded; it fails only where the `None` from `.get` is used.

## Model

| member | source | states |
|---|---|---|
| RankWindows.DefaultWindow | app.py:46-49 | a supplied bound is used unchanged; an absent low bound is the larger of 0 and rank-1000, an absent high bound the smaller of 200000 and rank+1000 |
| RankWindows.DefaultWindowContainsRank | app.py:46-49 | for a rank from 1 to 200000, the default window lies in [0, 200000], contains the rank and is at most 2000 wide |
| RankWindows.DefaultWindowExamples | app.py:46-49 | rank 5000 gives [4000, 6000], rank 500 gives [0, 1500], rank 199500 gives [198500, 200000] |
| BranchResolution.Matches | app.py:57 | the comprehension keeps exactly the labels that contain the branch ignoring case, and no more than there are labels |
| BranchResolution.FirstMatchIndex | app.py:57-60 | reference for "first match": the position of a matching label with no matching label before it, or the end when nothing matches |
| BranchResolution.Resolve | app.py:56-60 | a branch that is already a label resolves to itself; any resolved label is a row label containing the branch; the branch is skipped exactly when no label contains it |
| BranchResolution.MatchesStartWithFirstMatch | app.py:57-60 | `matches[0]` is the earliest label that contains the branch |
| BranchResolution.ResolveIsFirstMatch | app.py:56-60 | resolution is exact label first, then the label at the first matching position, then nothing |
| BranchResolution.ResolveIdempotent | app.py:56-60 | resolving a resolved label again gives the same label |
| BranchResolution.PartialNameResolves | app.py:56-60 | "computers" resolves to "CS Computers" when no exact label exists |
| CollegeLookup.ValidCollegesSound | app.py:62-69 | every returned college has, for some requested branch that resolved, a numeric round-1 or round-2 cutoff in [low, high] |
| CollegeLookup.ValidCollegesComplete | app.py:65-69 | every college with a numeric cutoff in [low, high] for a resolved requested branch, in either round, is returned |
| CollegeLookup.EmptyWindowQualifiesNothing | app.py:65-66 | a window with low > high yields no college |
| CollegeLookup.MissingCutoffsNeverQualify | app.py:62-66 | a college whose cells, in the resolved rows of the requested branches, are missing or non-numeric in both rounds is never returned |
| CollegeLookup.ValidCollegesGrow | app.py:54-69 | adding requested branches never removes a college; only which resolving branches are requested matters |
| CollegeLookup.UnresolvedBranchContributesNothing | app.py:55-59 | an unresolvable branch raises nothing and dropping it leaves the result of the other branches unchanged |
| CollegeLookup.SetToList | app.py:71 | `list(set)` holds each element of the set exactly once and nothing else |
| CollegeLookup.GetValidColleges | app.py:45-71 | the loop returns, without repeats, exactly the colleges of the union over resolved branches and both rounds of in-window cutoffs; with no requested branch it returns nothing and reads no table |
| CollegeLookup.UnresolvedBranchesNeedNoRound2 | app.py:55-63 | when no requested branch resolves, a category without a round-2 table raises nothing and no college qualifies |
| CollegeLookup.ScenarioCollegeAandC | app.py:45-71 | with round-1 cutoffs A 4500, B 7000 and round-2 cutoffs A 4600, C 5900, rank 5000 gives exactly A and C |
| ResultFrames.Join | app.py:135 | the outer join succeeds exactly when no column name is shared; its rows are the union of both row sets and its columns those of the left then of the right |
| ResultFrames.JoinCells | app.py:135 | each joined cell comes from the frame that owns its column, NaN where that frame lacks the row |
| ResultFrames.JoinEmptyFrame | app.py:135 | joining `pd.DataFrame()` onto a table leaves the table unchanged |
| BranchRanks.ColumnNamesDistinct | app.py:91-94 | "<a> R1" never equals "<b> R2", and equal column names of the same round mean equal labels |
| BranchRanks.GetBranchRanksForColleges | app.py:74-96 | an unresolvable branch gives an empty table without reading round 2; otherwise the rows are exactly the given colleges that are columns of the round-1 or round-2 table, the columns are "<label> R1" and "<label> R2", and each cell is that round's coerced cutoff or None |
| CombinedTable.CombineAll | app.py:128-135 | the accumulated table is always a well-formed frame |
| CombinedTable.Seed | app.py:132-133 | the seeding block is the first one with rows, or the last one when none has rows |
| CombinedTable.CombinedRowsAreUnion | app.py:128-135 | the rows of the combined table are the union of the rows of the per-branch tables |
| CombinedTable.RowsOfIsUnion | app.py:128-135 | a college is in that union exactly when some per-branch table has it as a row |
| CombinedTable.CombinedColumns | app.py:128-135 | the columns are those of the seeding block and of every later block, in the order the branches were requested |
| CombinedTable.CombinedCell | app.py:135 | each combined cell equals the cell of the block owning its column, NaN where that block lacks the row |
| CombinedTable.CombineSucceedsIff | app.py:135 | the loop raises exactly when two of the columns it keeps share a name |
| CombinedTable.NeverJoinedWhileEmpty | app.py:132-133 | while no block has rows, nothing is joined and the table stays without rows |
| CombinedTable.ErrorIsFinal | app.py:135 | once a join raises, the outcome of the loop is that error |
| CombinedTable.DisjointColumnsCombineCleanly | app.py:128-135 | per-branch tables whose column names are pairwise disjoint never make the loop raise |
| CombinedTable.DistinctLabelsCombineCleanly | app.py:128-135 | requested branches that resolve to distinct round-1 labels never make the loop raise |
| CombinedTable.CombinedRowsAreValidColleges | app.py:123-135 | fed the qualifying colleges, the combined table has exactly those colleges as rows |
| CombinedTable.CombineBranchRanks | app.py:128-135 | the loop computes the left fold of "replace while rowless, else outer-join" over the per-branch tables |

## Left out

- The Streamlit interface (widgets, titles, warnings, the rendered table) and the password gate: presentation and a foreign secret lookup, with no logic to state.
- Loading the two JSON files and rebuilding the data frames: file I/O and a library constructor; the tables are parameters.
- Floating point and `pd.to_numeric` coercion: every cell is pre-coerced to `Option<int>`.
- Case folding: `str.lower()` is modelled for ASCII letters only; other Unicode case mappings are not.
- Duplicate row labels: pandas would return a frame from `.loc`; the tables here are read as if each label occurs once.
- Row order: result rows are a set. pandas' order of the joined index and the final `sort_values` (which depends on NaN ordering) are not modelled. Its `selected_branches[0] in combined_df.columns` test never holds, because column names carry an " R1"/" R2" suffix, so the first column is always used.
- `result.index.name = "College"`: a display name with no effect on the data.
- pandas' `.empty` is also true for a frame with rows but no columns; no such frame arises here, so "empty" is "no rows".
