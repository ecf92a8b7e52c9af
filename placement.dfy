/**
 * Mine placement of the playing field, as a function of the random draws.
 *
 * The playing field first clamps the requested number of mines, then draws
 * `floor(random * numberOfTiles)` again and again.  A draw that names no tile
 * (tile numbers start at 1, so draw 0 names none) or a tile that is already a
 * mine is skipped; any other draw turns that tile into a mine and counts down.
 * The draws are an input here; `Place` is what the loop computes from them.
 */
module Placement {

  /** Every draw is an index `floor(random * n)`, that is, lies in `0..n-1`. */
  predicate DrawsFit(draws: seq<int>, n: int)
  {
    forall i :: 0 <= i < |draws| ==> 0 <= draws[i] < n
  }

  /** The tile numbers `lo`, ..., `hi - 1`. */
  function Range(lo: int, hi: int): (r: set<int>)
    ensures forall u :: u in r <==> lo <= u < hi
    decreases hi - lo
  {
    if lo >= hi then {} else Range(lo, hi - 1) + {hi - 1}
  }

  lemma {:induction false} RangeSize(lo: int, hi: int)
    requires lo <= hi
    ensures |Range(lo, hi)| == hi - lo
    decreases hi - lo
  {
    if lo < hi {
      RangeSize(lo, hi - 1);
    }
  }

  lemma SubsetSize(s: set<int>, t: set<int>)
    requires s <= t
    ensures |s| <= |t|
  {
    assert t == s + (t - s);
  }

  /** A set of tile numbers inside `lo..hi-1` has at most `hi - lo` elements. */
  lemma SubsetOfRangeSize(s: set<int>, lo: int, hi: int)
    requires lo <= hi && forall u :: u in s ==> lo <= u < hi
    ensures |s| <= hi - lo
  {
    RangeSize(lo, hi);
    SubsetSize(s, Range(lo, hi));
  }

  /**
   * The number of mines the playing field places: more than the number of
   * tiles becomes the number of tiles, fewer than 10 becomes 10.
   */
  function ClampMimes(requested: int, n: int): (m: int)
    ensures requested > n ==> m == n
    ensures requested <= n && requested < 10 ==> m == 10
    ensures 10 <= requested <= n ==> m == requested
    ensures n >= 10 ==> 10 <= m <= n
  {
    if requested > n then n
    else if requested < 10 then 10
    else requested
  }

  /**
   * The mines placed by the loop from draw `i` on, when `left` more are
   * wanted and `placed` are already placed; the loop stops when nothing is
   * left to place (or, here, when the draws run out).
   */
  function PlaceFrom(draws: seq<int>, i: nat, n: int, left: int, placed: set<int>): (r: set<int>)
    requires i <= |draws|
    ensures placed <= r
    decreases |draws| - i
  {
    if left <= 0 || i == |draws| then placed
    else if 1 <= draws[i] <= n && draws[i] !in placed then PlaceFrom(draws, i + 1, n, left - 1, placed + {draws[i]})
    else PlaceFrom(draws, i + 1, n, left, placed)
  }

  /** The mines the whole loop places, `left` of them wanted. */
  function Place(draws: seq<int>, n: int, left: int, placed: set<int>): (r: set<int>)
    ensures placed <= r
  {
    PlaceFrom(draws, 0, n, left, placed)
  }

  /**
   * What the loop adds: only tiles that exist and were drawn, and never more
   * than were wanted.
   */
  lemma {:induction false} PlaceProperties(draws: seq<int>, i: nat, n: int, left: int, placed: set<int>)
    requires i <= |draws| && left >= 0
    ensures var r := PlaceFrom(draws, i, n, left, placed);
      && placed <= r
      && (forall u :: u in r && u !in placed ==> u in draws[i..] && 1 <= u <= n)
      && |placed| <= |r| <= |placed| + left
    decreases |draws| - i
  {
    if left > 0 && i < |draws| {
      var d := draws[i];
      if 1 <= d <= n && d !in placed {
        PlaceProperties(draws, i + 1, n, left - 1, placed + {d});
      } else {
        PlaceProperties(draws, i + 1, n, left, placed);
      }
      assert draws[i..] == [d] + draws[i + 1..];
    }
  }

  /**
   * Draws lie in `0..n-1`, so tile `n` is never drawn: when it is not a mine
   * to begin with, placement never makes it one.
   */
  lemma {:induction false} LastTileNeverMined(draws: seq<int>, i: nat, n: int, left: int, placed: set<int>)
    requires i <= |draws|
    requires DrawsFit(draws, n)
    requires n !in placed
    ensures n !in PlaceFrom(draws, i, n, left, placed)
    decreases |draws| - i
  {
    if left > 0 && i < |draws| {
      var d := draws[i];
      if 1 <= d <= n && d !in placed {
        LastTileNeverMined(draws, i + 1, n, left - 1, placed + {d});
      } else {
        LastTileNeverMined(draws, i + 1, n, left, placed);
      }
    }
  }

  /**
   * Asking for a mine on every tile never finishes: whatever the draws,
   * fewer than `n` mines are placed, so the source's `while (mimesLeft > 0)`
   * loop runs forever when the clamped count equals the number of tiles.
   */
  lemma PlacementCannotFillBoard(draws: seq<int>, n: int)
    requires n >= 1 && DrawsFit(draws, n)
    ensures |Place(draws, n, n, {})| < n
  {
    var r := Place(draws, n, n, {});
    PlaceProperties(draws, 0, n, n, {});
    LastTileNeverMined(draws, 0, n, n, {});
    SubsetOfRangeSize(r, 1, n);
  }

  /** The draws 1, 2, ..., k in order. */
  function Ascending(lo: int, k: nat): (s: seq<int>)
    ensures |s| == k && forall i :: 0 <= i < k ==> s[i] == lo + i
    decreases k
  {
    if k == 0 then [] else [lo] + Ascending(lo + 1, k - 1)
  }

  /** Draw `j` of 1, ..., k is tile `j + 1`, never a mine yet, so every draw places one. */
  lemma {:induction false} AscendingPlacesAll(k: nat, j: nat, n: int)
    requires j <= k <= n
    ensures PlaceFrom(Ascending(1, k), j, n, k - j, Range(1, 1 + j)) == Range(1, 1 + k)
    decreases k - j
  {
    if j < k {
      assert Range(1, 1 + j) + {j + 1} == Range(1, 2 + j);
      AscendingPlacesAll(k, j + 1, n);
    }
  }

  /**
   * Any count below the number of tiles can be reached: the draws
   * 1, ..., m place exactly `m` mines.
   */
  lemma PlacementCanFinish(n: int, m: nat)
    requires m <= n - 1
    ensures DrawsFit(Ascending(1, m), n) && |Place(Ascending(1, m), n, m, {})| == m
  {
    AscendingPlacesAll(m, 0, n);
    assert Range(1, 1) == {};
    RangeSize(1, 1 + m);
  }
}
