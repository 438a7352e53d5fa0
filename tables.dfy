/** The cutoff data of the two admission rounds, as the lookup engine reads it
    once the JSON files have been turned back into data frames
    (app.py:21-36 loads them; loading is not part of this model). */
module CutoffTables {
  import opened Wrappers

  type Category = string
  /** A row label of a category table: a branch such as "CS Computers". */
  type Label = string
  /** A column label of a category table: a college code. */
  type College = string

  /** One category's table of one round. `labels` are the row labels in table
      order (the first-match rule depends on it), `colleges` the column labels,
      and `cells` the cutoffs after `pd.to_numeric(..., errors='coerce')`:
      a number is `Some(rank)`, an unparseable cell is `None`. A pair missing
      from `cells` reads as `None` too, like a NaN cell. */
  datatype Table = Table(labels: seq<Label>, colleges: set<College>, cells: map<(Label, College), Option<int>>)

  /** Category name to table, one dataset per round. */
  type Dataset = map<Category, Table>

  /** `category_tables.get(category)`: the category's table, or `None` when the
      dataset has no such category. */
  function TableFor(ds: Dataset, category: Category): (r: Option<Table>)
    ensures r.Some? <==> category in ds
    ensures r.Some? ==> r.value == ds[category]
  {
    if category in ds then Some(ds[category]) else None
  }

  /** The coerced cutoff of college `c` in row `row`. */
  function Cutoff(t: Table, row: Label, c: College): Option<int> {
    if (row, c) in t.cells then t.cells[(row, c)] else None
  }

  /** `str.lower()` on one character, restricted to ASCII letters. */
  function LowerChar(ch: char): char {
    if 'A' <= ch <= 'Z' then (ch as int - 'A' as int + 'a' as int) as char else ch
  }

  function Lower(s: string): string {
    seq(|s|, i requires 0 <= i < |s| => LowerChar(s[i]))
  }

  /** `needle` occurs in `hay` starting at position `i`. */
  predicate OccursAt(needle: string, hay: string, i: int) {
    0 <= i <= |hay| - |needle| && hay[i..i + |needle|] == needle
  }

  /** Python's `needle in hay` on strings: a contiguous occurrence. */
  predicate IsSubstring(needle: string, hay: string) {
    exists i | 0 <= i <= |hay| - |needle| :: OccursAt(needle, hay, i)
  }

  /** `branch.lower() in row.lower()` */
  predicate ContainsIgnoringCase(row: Label, branch: Label) {
    IsSubstring(Lower(branch), Lower(row))
  }

  /** Every label contains itself, so an exact label is also a case-insensitive match. */
  lemma ContainsItself(row: Label)
    ensures ContainsIgnoringCase(row, row)
  {
    var s := Lower(row);
    assert OccursAt(s, s, 0);
  }
}
