/** The inclusive rank window of get_valid_colleges (app.py:46-49). */
module RankWindows {
  import opened Wrappers

  /** The largest rank the entrance test reports. */
  const MaxRank: int := 200000
  /** How far the default window reaches on either side of the rank. */
  const Spread: int := 1000

  /** The inclusive interval [low, high] a cutoff must fall in. */
  datatype Window = Window(low: int, high: int)

  /** A supplied bound is used as given; an absent low bound becomes
      max(0, rank - 1000) and an absent high bound min(rank + 1000, 200000). */
  function DefaultWindow(rank: int, rankLow: Option<int>, rankHigh: Option<int>): (w: Window)
    ensures rankLow.Some? ==> w.low == rankLow.value
    ensures rankHigh.Some? ==> w.high == rankHigh.value
    ensures rankLow.None? ==> w.low >= 0 && w.low >= rank - Spread && (w.low == 0 || w.low == rank - Spread)
    ensures rankHigh.None? ==> w.high <= MaxRank && w.high <= rank + Spread && (w.high == MaxRank || w.high == rank + Spread)
  {
    var low := if rankLow.Some? then rankLow.value else if rank - Spread > 0 then rank - Spread else 0;
    var high := if rankHigh.Some? then rankHigh.value else if rank + Spread < MaxRank then rank + Spread else MaxRank;
    Window(low, high)
  }

  /** For any rank the form accepts (1 to 200000), the default window is a
      non-empty interval inside [0, 200000] that contains the rank. */
  lemma DefaultWindowContainsRank(rank: int)
    requires 1 <= rank <= MaxRank
    ensures var w := DefaultWindow(rank, None, None);
      0 <= w.low <= rank <= w.high <= MaxRank && w.high - w.low <= 2 * Spread
  {
  }

  /** The three worked cases: a rank in the middle, one near 0, one near the top. */
  lemma DefaultWindowExamples()
    ensures DefaultWindow(5000, None, None) == Window(4000, 6000)
    ensures DefaultWindow(500, None, None) == Window(0, 1500)
    ensures DefaultWindow(199500, None, None) == Window(198500, 200000)
  {
  }
}
