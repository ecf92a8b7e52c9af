/**
 * The early single-script version of the game: it appends rows of tile
 * elements to the page, each tile carrying a `data-mime` flag that starts
 * false, and then flips the flag on randomly drawn tiles until the wanted
 * number of mines is reached.
 *
 * The page's tile elements are modelled by their mime flags in document
 * order; a draw is the index `floor(random * length)` into that list and is
 * an argument here.  The size clamps differ from the playing field's: rows
 * in [4, 16], tiles per row in [8, 30]; the mine count is only capped by the
 * number of tiles.
 */
module Prototype {

  import opened Grid
  import opened Placement

  const MinRows := 4
  const MaxRows := 16
  const MinColumns := 8
  const MaxColumns := 30

  /** `k` tiles that are not mines. */
  function Falses(k: int): (s: seq<bool>)
    ensures |s| == (if k > 0 then k else 0) && forall j :: 0 <= j < |s| ==> !s[j]
  {
    seq(if k > 0 then k else 0, _ => false)
  }

  /** How many tiles of `s` are mines. */
  function CountTrue(s: seq<bool>): (k: nat)
    ensures k <= |s|
  {
    if |s| == 0 then 0 else CountTrue(s[..|s| - 1]) + (if s[|s| - 1] then 1 else 0)
  }

  lemma {:induction false} CountTrueNone(s: seq<bool>)
    requires forall j :: 0 <= j < |s| ==> !s[j]
    ensures CountTrue(s) == 0
  {
    if |s| > 0 {
      CountTrueNone(s[..|s| - 1]);
    }
  }

  /** Turning one non-mine into a mine adds exactly one to the count. */
  lemma {:induction false} CountTrueSet(s: seq<bool>, j: int)
    requires 0 <= j < |s| && !s[j]
    ensures CountTrue(s[j := true]) == CountTrue(s) + 1
  {
    var t := s[j := true];
    if j < |s| - 1 {
      CountTrueSet(s[..|s| - 1], j);
      assert t[..|t| - 1] == s[..|s| - 1][j := true];
    } else {
      assert t[..|t| - 1] == s[..|s| - 1];
    }
  }

  /** When fewer than all tiles are mines, some tile is not one. */
  lemma {:induction false} SomeFalse(s: seq<bool>)
    requires CountTrue(s) < |s|
    ensures exists j :: 0 <= j < |s| && !s[j]
  {
    if s[|s| - 1] {
      SomeFalse(s[..|s| - 1]);
      var j :| 0 <= j < |s| - 1 && !s[..|s| - 1][j];
      assert !s[j];
    }
  }

  /** The number of mines the loop sets out to place: the smaller of the request and the number of tiles, with no lower bound. */
  function Target(numberOfMimes: int, length: int): (m: int)
    ensures m <= length && m <= numberOfMimes
    ensures m == length || m == numberOfMimes
  {
    if numberOfMimes > length then length else numberOfMimes
  }

  /**
   * The mime flags and the count still to place after the loop has used the
   * draws from `i` on, starting from `flags` with `left` to place: a draw of
   * a mine is skipped, any other draw turns that tile into a mine.
   */
  function Scatter(draws: seq<int>, i: nat, flags: seq<bool>, left: int): (r: (seq<bool>, int))
    requires i <= |draws| && DrawsFit(draws, |flags|)
    ensures |r.0| == |flags| && r.1 <= left
    ensures forall j :: 0 <= j < |flags| && flags[j] ==> r.0[j]
    decreases |draws| - i
  {
    if left <= 0 || i == |draws| then (flags, left)
    else if flags[draws[i]] then Scatter(draws, i + 1, flags, left)
    else Scatter(draws, i + 1, flags[draws[i] := true], left - 1)
  }

  /**
   * What the loop does to the flags: no mine is removed, every new mine was
   * drawn, and the count of mines grows by exactly the number placed.
   */
  lemma {:induction false} ScatterProperties(draws: seq<int>, i: nat, flags: seq<bool>, left: int)
    requires i <= |draws| && DrawsFit(draws, |flags|) && left >= 0
    ensures var (r, rest) := Scatter(draws, i, flags, left);
      && |r| == |flags| && 0 <= rest <= left
      && CountTrue(r) == CountTrue(flags) + (left - rest)
      && (forall j :: 0 <= j < |flags| && flags[j] ==> r[j])
      && (forall j :: 0 <= j < |flags| && r[j] && !flags[j] ==> j in draws[i..])
    decreases |draws| - i
  {
    if left > 0 && i < |draws| {
      var d := draws[i];
      if flags[d] {
        ScatterProperties(draws, i + 1, flags, left);
      } else {
        CountTrueSet(flags, d);
        ScatterProperties(draws, i + 1, flags[d := true], left - 1);
      }
      assert draws[i..] == [d] + draws[i + 1..];
    }
  }

  /**
   * Once every tile that is not yet a mine is among the remaining draws, the
   * loop finishes, whatever the target up to the number of such tiles; in
   * particular a target equal to the number of tiles can be met.
   */
  lemma {:induction false} ScatterCompletes(draws: seq<int>, i: nat, flags: seq<bool>, left: int)
    requires i <= |draws| && DrawsFit(draws, |flags|)
    requires forall x :: 0 <= x < |flags| && !flags[x] ==> x in draws[i..]
    requires left <= |flags| - CountTrue(flags)
    ensures Scatter(draws, i, flags, left).1 <= 0
    decreases |draws| - i
  {
    if left > 0 {
      SomeFalse(flags);
      var x :| 0 <= x < |flags| && !flags[x];
      assert x in draws[i..];
      assert i < |draws|;
      var d := draws[i];
      assert draws[i..] == [d] + draws[i + 1..];
      if flags[d] {
        ScatterCompletes(draws, i + 1, flags, left);
      } else {
        CountTrueSet(flags, d);
        ScatterCompletes(draws, i + 1, flags[d := true], left - 1);
      }
    }
  }

  /** The page: the `data-mime` flag of each tile element, in document order. */
  class Page {
    var tileList: seq<bool>

    /** A page without tiles. */
    constructor ()
      ensures tileList == []
    {
      tileList := [];
    }

    /**
     * Clamps the size to 4..16 rows of 8..30 tiles and appends that many rows
     * of fresh tiles.
     */
    method CreateTileRows(fieldHeight: int, fieldWidth: int)
      modifies this
      ensures tileList == old(tileList) + Falses(Clamp(fieldHeight, MinRows, MaxRows) * Clamp(fieldWidth, MinColumns, MaxColumns))
    {
      var h, w := fieldHeight, fieldWidth;
      if h < MinRows { h := MinRows; }
      if w < MinColumns { w := MinColumns; }
      if h > MaxRows { h := MaxRows; }
      if w > MaxColumns { w := MaxColumns; }
      for height := 0 to h
        invariant tileList == old(tileList) + Falses(height * w)
      {
        CreateTiles(w);
        assert Falses(height * w) + Falses(w) == Falses((height + 1) * w);
      }
    }

    /** Appends a row of `fieldWidth` tiles, none of them a mine. */
    method CreateTiles(fieldWidth: int)
      modifies this
      ensures tileList == old(tileList) + Falses(fieldWidth)
    {
      var width := 0;
      while width < fieldWidth
        invariant 0 <= width && (if fieldWidth >= 0 then width <= fieldWidth else width == 0)
        invariant tileList == old(tileList) + Falses(width)
      {
        tileList := tileList + [false];
        assert Falses(width) + [false] == Falses(width + 1);
        width := width + 1;
      }
    }

    /**
     * Places `numberOfMimes` mines, capped at the number of tiles, from the
     * draws.  `complete` tells whether the target was met before the draws
     * ran out; the source keeps drawing until it is.
     */
    method CreateMimes(numberOfMimes: int, draws: seq<int>) returns (complete: bool)
      requires DrawsFit(draws, |tileList|)
      modifies this
      ensures var (r, rest) := Scatter(draws, 0, old(tileList), Target(numberOfMimes, |old(tileList)|));
        tileList == r && (complete <==> rest <= 0)
    {
      var mimesLeft := if numberOfMimes > |tileList| then |tileList| else numberOfMimes;
      var i := 0;
      while mimesLeft > 0 && i < |draws|
        invariant 0 <= i <= |draws| && |tileList| == |old(tileList)|
        invariant Scatter(draws, i, tileList, mimesLeft) == Scatter(draws, 0, old(tileList), Target(numberOfMimes, |old(tileList)|))
      {
        var randomIndex := draws[i];
        i := i + 1;
        if tileList[randomIndex] {
          continue;
        } else {
          tileList := tileList[randomIndex := true];
          mimesLeft := mimesLeft - 1;
        }
      }
      complete := mimesLeft <= 0;
    }

    /**
     * The page's script: a board asked for as 40 by 40 becomes 16 rows of 30
     * tiles, and 99 mines are placed on it.
     */
    method Load(draws: seq<int>) returns (complete: bool)
      requires tileList == [] && DrawsFit(draws, MaxRows * MaxColumns)
      modifies this
      ensures |tileList| == MaxRows * MaxColumns
      ensures complete ==> CountTrue(tileList) == 99
      ensures forall j :: 0 <= j < |tileList| && tileList[j] ==> j in draws
    {
      CreateTileRows(40, 40);
      ghost var initial := tileList;
      complete := CreateMimes(99, draws);
      CountTrueNone(initial);
      ScatterProperties(draws, 0, initial, 99);
      assert draws[0..] == draws;
    }
  }
}
