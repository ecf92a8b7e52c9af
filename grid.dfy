/**
 * Board geometry of the playing field.
 *
 * Tiles are numbered from 1 in row-major order: on a board `w` tiles wide,
 * tile `t` sits in row `(t - 1) / w` and column `(t - 1) % w`.  The playing
 * field never stores rows and columns; it finds neighbours with 1-based index
 * arithmetic and edge tests on `% w`.  This module states those tests as the
 * source writes them and proves them against a plain (row, column) reference.
 */
module Grid {

  /**
   * A board dimension moved into `lo..hi`: below `lo` becomes `lo`, above
   * `hi` becomes `hi` (the source's pair of `if`s per dimension).
   */
  function Clamp(x: int, lo: int, hi: int): (r: int)
    requires lo <= hi
    ensures lo <= r <= hi
    ensures lo <= x <= hi ==> r == x
  {
    if x < lo then lo else if x > hi then hi else x
  }

  /** The clamped value is the in-range value nearest to the requested one. */
  lemma ClampNearest(x: int, lo: int, hi: int, y: int)
    requires lo <= y <= hi
    ensures var r := Clamp(x, lo, hi);
      (if r >= x then r - x else x - r) <= (if y >= x then y - x else x - y)
  {
  }

  /** Tile number of row `r`, column `c`. */
  function TileNum(r: int, c: int, w: int): int
  {
    r * w + c + 1
  }

  function RowOf(t: int, w: int): int
    requires w > 0
  {
    (t - 1) / w
  }

  function ColOf(t: int, w: int): int
    requires w > 0
  {
    (t - 1) % w
  }

  lemma MulAtLeast(k: int, w: int)
    requires k >= 1 && w > 0
    ensures k * w >= w
  {
  }

  lemma MulMonotone(a: int, b: int, w: int)
    requires a <= b && w > 0
    ensures a * w <= b * w
  {
    if a < b {
      MulAtLeast(b - a, w);
    }
  }

  /** A row strictly above the bottom ends at or before the last tile. */
  lemma RowBound(r: int, h: int, w: int)
    requires 0 <= r < h && w > 0
    ensures r * w + w <= h * w
  {
    MulMonotone(r + 1, h, w);
    assert (r + 1) * w == r * w + w;
  }

  /** Division and remainder are unique: the heart of every edge test below. */
  lemma DivMod(q: int, s: int, w: int)
    requires w > 0 && 0 <= s < w
    ensures (q * w + s) % w == s && (q * w + s) / w == q
  {
    var x := q * w + s;
    var d, m := x / w, x % w;
    assert x == d * w + m;
    assert (q - d) * w == m - s;
    if q > d {
      MulAtLeast(q - d, w);
    } else if q < d {
      MulAtLeast(d - q, w);
    }
  }

  /** Every tile of an `h` by `w` board has coordinates inside the board. */
  lemma Coordinates(t: int, h: int, w: int)
    requires h > 0 && w > 0 && 1 <= t <= h * w
    ensures 0 <= RowOf(t, w) < h && 0 <= ColOf(t, w) < w
    ensures TileNum(RowOf(t, w), ColOf(t, w), w) == t
  {
    var r, c := RowOf(t, w), ColOf(t, w);
    assert t - 1 == r * w + c;
    if r < 0 {
      MulMonotone(r, -1, w);
    }
    if r >= h {
      MulMonotone(h, r, w);
    }
  }

  /** Distinct in-board coordinates have distinct tile numbers. */
  lemma TileNumInjective(r: int, c: int, r2: int, c2: int, w: int)
    requires w > 0 && 0 <= c < w && 0 <= c2 < w
    requires TileNum(r, c, w) == TileNum(r2, c2, w)
    ensures r == r2 && c == c2
  {
    DivMod(r, c, w);
    DivMod(r2, c2, w);
  }

  /** 1 when the guarded neighbour `u` is a mine, 0 otherwise. */
  function Hit(mines: set<int>, u: int, guard: bool): nat
  {
    if guard && u in mines then 1 else 0
  }

  /**
   * The number of mines next to tile `t`, computed as the playing field does:
   * eight 1-based offsets, each behind its own edge test.  The right and the
   * two lower diagonal tests compare with `< n`, the plain downward test with
   * `<= n`.
   */
  function MimeNeighbours(mines: set<int>, w: int, n: int, t: int): (k: nat)
    requires w > 0
    ensures k <= 8
  {
    Hit(mines, t - 1, t - 1 > 0 && (t - 1) % w != 0)
    + Hit(mines, t + 1, t + 1 < n && (t + 1) % w != 1)
    + Hit(mines, t - w, t - w > 0)
    + Hit(mines, t + w, t + w <= n)
    + Hit(mines, t - 1 - w, t - 1 - w > 0 && (t - 1 - w) % w != 0)
    + Hit(mines, t + 1 - w, t + 1 - w > 0 && (t + 1 - w) % w != 1)
    + Hit(mines, t - 1 + w, t - 1 + w < n && (t - 1 + w) % w != 0)
    + Hit(mines, t + 1 + w, t + 1 + w < n && (t + 1 + w) % w != 1)
  }

  /**
   * The four directions the flood fill follows from `u` (left, right, up,
   * down), with the source's edge tests; diagonals are never followed.  A
   * step from a tile of the board lands on another tile of the board.
   */
  predicate FloodAdjacent(w: int, n: int, u: int, v: int)
    requires w > 0
    ensures 1 <= u <= n && FloodAdjacent(w, n, u, v) ==> 1 <= v <= n && v != u
  {
    || (v == u - 1 && u - 1 > 0 && (u - 1) % w != 0)
    || (v == u + 1 && u + 1 <= n && (u + 1) % w != 1)
    || (v == u - w && u - w > 0)
    || (v == u + w && u + w <= n)
  }

  /** The tile the flood fill tries in direction `d` from `u`: 0 left, 1 right, 2 up, 3 down. */
  function FloodTarget(w: int, u: int, d: int): (v: int)
    ensures v == u - 1 || v == u + 1 || v == u - w || v == u + w
  {
    if d == 0 then u - 1 else if d == 1 then u + 1 else if d == 2 then u - w else u + w
  }

  /** The source's edge test for direction `d` from `u`. */
  predicate FloodEdge(w: int, n: int, u: int, d: int)
    requires w > 0
    ensures 1 <= u <= n && FloodEdge(w, n, u, d) ==> 0 <= d < 4 && 1 <= FloodTarget(w, u, d) <= n
  {
    if d == 0 then u - 1 > 0 && (u - 1) % w != 0
    else if d == 1 then u + 1 <= n && (u + 1) % w != 1
    else if d == 2 then u - w > 0
    else d == 3 && u + w <= n
  }

  /** The four directions, tried in order, are exactly the flood steps. */
  lemma FloodDirections(w: int, n: int, u: int, v: int)
    requires w > 0
    ensures FloodAdjacent(w, n, u, v) <==> exists d :: 0 <= d < 4 && FloodEdge(w, n, u, d) && v == FloodTarget(w, u, d)
  {
    if FloodAdjacent(w, n, u, v) {
      if v == u - 1 && u - 1 > 0 && (u - 1) % w != 0 {
        assert FloodEdge(w, n, u, 0) && v == FloodTarget(w, u, 0);
      } else if v == u + 1 && u + 1 <= n && (u + 1) % w != 1 {
        assert FloodEdge(w, n, u, 1) && v == FloodTarget(w, u, 1);
      } else if v == u - w && u - w > 0 {
        assert FloodEdge(w, n, u, 2) && v == FloodTarget(w, u, 2);
      } else {
        assert FloodEdge(w, n, u, 3) && v == FloodTarget(w, u, 3);
      }
    }
  }

  /**
   * A tile whose count is 0 has no mine among the tiles the flood fill
   * follows from it, provided the last tile is not a mine (the one tile the
   * `< n` test of the rightward count skips).
   */
  lemma ZeroTileHasSafeFloodNeighbours(mines: set<int>, w: int, n: int, u: int, v: int)
    requires w > 0 && n !in mines
    requires MimeNeighbours(mines, w, n, u) == 0 && FloodAdjacent(w, n, u, v)
    ensures v !in mines
  {
  }

  // ---------------------------------------------------------------------
  // Reference geometry on (row, column) coordinates.

  predicate OnBoard(h: int, w: int, r: int, c: int)
  {
    0 <= r < h && 0 <= c < w
  }

  function MineAt(mines: set<int>, h: int, w: int, r: int, c: int): nat
  {
    if OnBoard(h, w, r, c) && TileNum(r, c, w) in mines then 1 else 0
  }

  /** Mines among the up-to-eight in-board cells around (r, c). */
  function GeoCount(mines: set<int>, h: int, w: int, r: int, c: int): nat
  {
    MineAt(mines, h, w, r - 1, c - 1) + MineAt(mines, h, w, r - 1, c) + MineAt(mines, h, w, r - 1, c + 1)
    + MineAt(mines, h, w, r, c - 1) + MineAt(mines, h, w, r, c + 1)
    + MineAt(mines, h, w, r + 1, c - 1) + MineAt(mines, h, w, r + 1, c) + MineAt(mines, h, w, r + 1, c + 1)
  }

  /** Two in-board cells that share a side. */
  predicate Orthogonal(h: int, w: int, r: int, c: int, r2: int, c2: int)
  {
    OnBoard(h, w, r, c) && OnBoard(h, w, r2, c2)
    && ((r == r2 && (c2 == c - 1 || c2 == c + 1)) || (c == c2 && (r2 == r - 1 || r2 == r + 1)))
  }

  // One lemma per direction: the source's edge test holds exactly when the
  // neighbouring cell is on the board, and the offset tile number is that
  // cell's number.

  lemma LeftMatches(mines: set<int>, h: int, w: int, r: int, c: int)
    requires h >= 1 && w >= 2 && OnBoard(h, w, r, c)
    ensures var t := TileNum(r, c, w);
      Hit(mines, t - 1, t - 1 > 0 && (t - 1) % w != 0) == MineAt(mines, h, w, r, c - 1)
  {
    DivMod(r, c, w);
    MulMonotone(0, r, w);
  }

  lemma RightMatches(mines: set<int>, h: int, w: int, r: int, c: int)
    requires h >= 1 && w >= 2 && OnBoard(h, w, r, c) && h * w !in mines
    ensures var t := TileNum(r, c, w);
      Hit(mines, t + 1, t + 1 < h * w && (t + 1) % w != 1) == MineAt(mines, h, w, r, c + 1)
  {
    var t := TileNum(r, c, w);
    RowBound(r, h, w);
    if c + 2 < w {
      DivMod(r, c + 2, w);
      assert t + 1 == r * w + (c + 2);
    } else if c + 2 == w {
      DivMod(r + 1, 0, w);
      assert t + 1 == (r + 1) * w + 0;
    } else {
      DivMod(r + 1, 1, w);
      assert t + 1 == (r + 1) * w + 1;
    }
  }

  lemma UpMatches(mines: set<int>, h: int, w: int, r: int, c: int)
    requires h >= 1 && w >= 2 && OnBoard(h, w, r, c)
    ensures var t := TileNum(r, c, w);
      Hit(mines, t - w, t - w > 0) == MineAt(mines, h, w, r - 1, c)
  {
    if r >= 1 {
      MulMonotone(0, r - 1, w);
    }
  }

  lemma DownMatches(mines: set<int>, h: int, w: int, r: int, c: int)
    requires h >= 1 && w >= 2 && OnBoard(h, w, r, c)
    ensures var t := TileNum(r, c, w);
      Hit(mines, t + w, t + w <= h * w) == MineAt(mines, h, w, r + 1, c)
  {
    if r + 1 < h {
      MulMonotone(r + 1, h - 1, w);
    }
  }

  lemma UpLeftMatches(mines: set<int>, h: int, w: int, r: int, c: int)
    requires h >= 1 && w >= 2 && OnBoard(h, w, r, c)
    ensures var t := TileNum(r, c, w);
      Hit(mines, t - 1 - w, t - 1 - w > 0 && (t - 1 - w) % w != 0) == MineAt(mines, h, w, r - 1, c - 1)
  {
    var t := TileNum(r, c, w);
    if r >= 1 {
      DivMod(r - 1, c, w);
      assert t - 1 - w == (r - 1) * w + c;
      MulMonotone(0, r - 1, w);
    }
  }

  lemma UpRightMatches(mines: set<int>, h: int, w: int, r: int, c: int)
    requires h >= 1 && w >= 2 && OnBoard(h, w, r, c)
    ensures var t := TileNum(r, c, w);
      Hit(mines, t + 1 - w, t + 1 - w > 0 && (t + 1 - w) % w != 1) == MineAt(mines, h, w, r - 1, c + 1)
  {
    var t := TileNum(r, c, w);
    if r == 0 {
      DivMod(0, 1, w);
    } else {
      MulMonotone(0, r - 1, w);
      if c + 2 < w {
        DivMod(r - 1, c + 2, w);
        assert t + 1 - w == (r - 1) * w + (c + 2);
      } else if c + 2 == w {
        DivMod(r, 0, w);
        assert t + 1 - w == r * w + 0;
      } else {
        DivMod(r, 1, w);
        assert t + 1 - w == r * w + 1;
      }
    }
  }

  lemma DownLeftMatches(mines: set<int>, h: int, w: int, r: int, c: int)
    requires h >= 1 && w >= 2 && OnBoard(h, w, r, c)
    ensures var t := TileNum(r, c, w);
      Hit(mines, t - 1 + w, t - 1 + w < h * w && (t - 1 + w) % w != 0) == MineAt(mines, h, w, r + 1, c - 1)
  {
    var t := TileNum(r, c, w);
    DivMod(r + 1, c, w);
    assert t - 1 + w == (r + 1) * w + c;
    if r + 1 < h {
      RowBound(r + 1, h, w);
    }
  }

  lemma DownRightMatches(mines: set<int>, h: int, w: int, r: int, c: int)
    requires h >= 1 && w >= 2 && OnBoard(h, w, r, c) && h * w !in mines
    ensures var t := TileNum(r, c, w);
      Hit(mines, t + 1 + w, t + 1 + w < h * w && (t + 1 + w) % w != 1) == MineAt(mines, h, w, r + 1, c + 1)
  {
    var t := TileNum(r, c, w);
    if r + 1 < h {
      RowBound(r + 1, h, w);
    }
    if c + 2 < w {
      DivMod(r + 1, c + 2, w);
      assert t + 1 + w == (r + 1) * w + (c + 2);
    } else if c + 2 == w {
      DivMod(r + 2, 0, w);
      assert t + 1 + w == (r + 2) * w + 0;
    } else {
      DivMod(r + 2, 1, w);
      assert t + 1 + w == (r + 2) * w + 1;
    }
  }

  /**
   * The source's 1-based neighbour count agrees with the (row, column)
   * reference on every tile, as long as the last tile is not a mine: the only
   * tile the `< n` tests leave out is tile `n` itself.
   */
  lemma CountMatchesGeometry(mines: set<int>, h: int, w: int, r: int, c: int)
    requires h >= 1 && w >= 2 && OnBoard(h, w, r, c) && h * w !in mines
    ensures MimeNeighbours(mines, w, h * w, TileNum(r, c, w)) == GeoCount(mines, h, w, r, c)
  {
    LeftMatches(mines, h, w, r, c);
    RightMatches(mines, h, w, r, c);
    UpMatches(mines, h, w, r, c);
    DownMatches(mines, h, w, r, c);
    UpLeftMatches(mines, h, w, r, c);
    UpRightMatches(mines, h, w, r, c);
    DownLeftMatches(mines, h, w, r, c);
    DownRightMatches(mines, h, w, r, c);
  }

  /** The flood fill's rightward test (`<= n`) holds exactly off the last column. */
  lemma RightFloodTest(h: int, w: int, r: int, c: int)
    requires h >= 1 && w >= 2 && OnBoard(h, w, r, c)
    ensures var u := TileNum(r, c, w);
      (u + 1 <= h * w && (u + 1) % w != 1) <==> c + 1 < w
  {
    var u := TileNum(r, c, w);
    RowBound(r, h, w);
    if c + 2 < w {
      DivMod(r, c + 2, w);
      assert u + 1 == r * w + (c + 2);
    } else if c + 2 == w {
      DivMod(r + 1, 0, w);
      assert u + 1 == (r + 1) * w + 0;
    } else {
      DivMod(r + 1, 1, w);
      assert u + 1 == (r + 1) * w + 1;
    }
  }

  /**
   * The flood fill moves between exactly the cells that share a side:
   * never diagonally, never across the left or right edge.
   */
  lemma FloodMatchesGeometry(h: int, w: int, r: int, c: int, r2: int, c2: int)
    requires h >= 1 && w >= 2 && OnBoard(h, w, r, c) && OnBoard(h, w, r2, c2)
    ensures FloodAdjacent(w, h * w, TileNum(r, c, w), TileNum(r2, c2, w)) <==> Orthogonal(h, w, r, c, r2, c2)
  {
    var u, v := TileNum(r, c, w), TileNum(r2, c2, w);
    LeftMatches({v}, h, w, r, c);
    RightFloodTest(h, w, r, c);
    UpMatches({v}, h, w, r, c);
    DownMatches({v}, h, w, r, c);
    if v == u - 1 && c >= 1 {
      TileNumInjective(r, c - 1, r2, c2, w);
    }
    if v == u + 1 && c + 1 < w {
      TileNumInjective(r, c + 1, r2, c2, w);
    }
    if v == u - w {
      TileNumInjective(r - 1, c, r2, c2, w);
    }
    if v == u + w {
      TileNumInjective(r + 1, c, r2, c2, w);
    }
  }
}
