/**
 * Tile and game state of the playing field as values, and the facts about
 * them that both reveal implementations (the playing field's own and the one
 * on tile objects) rely on.
 *
 * The game calls its mines "mimes"; the two words mean the same thing here
 * (`Mime`, `mimes` and `MimeNeighbours` follow the game's names, `mines`
 * is the ghost set of their tile numbers).
 *
 * A tile carries its content (nothing yet, a mine "M", or the number of
 * neighbouring mines), whether it is revealed ("clicked") and whether it is
 * flagged.  The board is the map from tile numbers 1..n to tiles.  Attached
 * input listeners are modelled by the game state: `Active` means they are
 * attached; `Won` and `Lost` mean they were removed; `Setup` means the
 * board is still being laid out and no listener is attached yet.
 */
module BoardState {

  import opened Grid
  import opened Wrappers
  import Placement

  datatype Content = Unset | Mime | Count(n: int)

  datatype TileState = TileState(content: Content, clicked: bool, flagged: bool)

  datatype GameState = Setup | Active | Won | Lost

  /** The state a tile is created in: content null, not clicked, not flagged. */
  const Fresh := TileState(Unset, false, false)

  ghost predicate IsBoard(tiles: map<int, TileState>, n: int)
  {
    forall u :: u in tiles <==> 1 <= u <= n
  }

  ghost function Revealed(tiles: map<int, TileState>): set<int>
  {
    set u | u in tiles && tiles[u].clicked
  }

  ghost function Hidden(tiles: map<int, TileState>): set<int>
  {
    set u | u in tiles && !tiles[u].clicked
  }

  /** The tiles that are not mines. */
  ghost function Safe(n: int, mines: set<int>): set<int>
  {
    Placement.Range(1, n + 1) - mines
  }

  /** A non-mine tile whose neighbour count is 0: the flood fill goes on from it. */
  predicate IsZero(mines: set<int>, w: int, n: int, u: int)
    requires w > 0
  {
    u !in mines && MimeNeighbours(mines, w, n, u) == 0
  }

  /** Every tile shows "M" or its neighbour count, as computed after placement. */
  predicate LaidOut(tiles: map<int, TileState>, mines: set<int>, w: int, n: int)
    requires w > 0
  {
    forall u :: u in tiles ==> tiles[u].content == (if u in mines then Mime else Count(MimeNeighbours(mines, w, n, u)))
  }

  /**
   * The invariant of a playing field of `n` tiles, `w` wide, whose mines are
   * `mines`, that believes it holds `mimes` mines and has counted
   * `clickedCount` revealed tiles.  Mines only sit on tiles 1..n-1; the
   * counter equals the number of revealed tiles; once set up, the board is laid
   * out; while the game runs or is won no mine is revealed, and the game is
   * won exactly when the counter has reached `n - mimes`.
   */
  ghost predicate Consistent(tiles: map<int, TileState>, mines: set<int>, w: int, n: int,
                             mimes: int, clickedCount: int, state: GameState)
  {
    && w >= 2 && n >= 1 && IsBoard(tiles, n)
    && (forall u :: u in mines ==> 1 <= u < n)
    && (forall u :: u in tiles ==> (tiles[u].content == Mime <==> u in mines))
    && clickedCount == |Revealed(tiles)|
    && (state != Setup ==> |mines| == mimes && LaidOut(tiles, mines, w, n))
    && (state == Setup ==> Revealed(tiles) == {})
    && (state == Active || state == Won ==> Revealed(tiles) !! mines)
    && (state == Active ==> clickedCount < n - mimes)
    && (state == Won ==> clickedCount == n - mimes)
    && (state == Lost ==> !(Revealed(tiles) !! mines))
  }

  lemma NoneRevealed(tiles: map<int, TileState>)
    requires forall u :: u in tiles ==> !tiles[u].clicked
    ensures Revealed(tiles) == {}
  {
    forall u ensures u !in Revealed(tiles) {
      if u in tiles {
        assert !tiles[u].clicked;
      }
    }
  }

  lemma SafeSize(n: int, mines: set<int>)
    requires n >= 0 && forall u :: u in mines ==> 1 <= u <= n
    ensures |Safe(n, mines)| == n - |mines|
  {
    var all := Placement.Range(1, n + 1);
    Placement.RangeSize(1, n + 1);
    assert all == Safe(n, mines) + mines;
  }

  lemma SameSizeSubset(a: set<int>, b: set<int>)
    requires a <= b && |a| == |b|
    ensures a == b
  {
    assert b == a + (b - a);
  }

  /** Revealed tiles of a running or won game are safe tiles. */
  lemma RevealedAreSafe(tiles: map<int, TileState>, mines: set<int>, w: int, n: int,
                        mimes: int, k: int, state: GameState)
    requires Consistent(tiles, mines, w, n, mimes, k, state)
    requires state == Active || state == Won
    ensures Revealed(tiles) <= Safe(n, mines)
    ensures |Safe(n, mines)| == n - mimes
  {
    SafeSize(n, mines);
  }

  /**
   * The win test on the counter means what it should: a running or won game
   * is won exactly when every non-mine tile is revealed.
   */
  lemma WonIffAllSafeRevealed(tiles: map<int, TileState>, mines: set<int>, w: int, n: int,
                              mimes: int, k: int, state: GameState)
    requires Consistent(tiles, mines, w, n, mimes, k, state)
    requires state == Active || state == Won
    ensures state == Won <==> Revealed(tiles) == Safe(n, mines)
  {
    RevealedAreSafe(tiles, mines, w, n, mimes, k, state);
    if state == Won {
      SameSizeSubset(Revealed(tiles), Safe(n, mines));
    }
  }

  /**
   * While a safe tile is still hidden the game is not won; so the flood fill,
   * which only meets safe tiles, only ever reveals tiles of a running game.
   */
  lemma HiddenSafeMeansActive(tiles: map<int, TileState>, mines: set<int>, w: int, n: int,
                              mimes: int, k: int, state: GameState, v: int)
    requires Consistent(tiles, mines, w, n, mimes, k, state)
    requires state == Active || state == Won
    requires v in tiles && !tiles[v].clicked && v !in mines
    ensures state == Active
  {
    assert v in Safe(n, mines);
    assert v !in Revealed(tiles);
    WonIffAllSafeRevealed(tiles, mines, w, n, mimes, k, state);
  }

  /** The state a running game is in after its counter reaches `k`, having just revealed `t`. */
  function Outcome(mines: set<int>, n: int, mimes: int, k: int, t: int): GameState
  {
    if t in mines then Lost else if k == n - mimes then Won else Active
  }

  /**
   * Revealing one hidden tile of a running game and counting it keeps the
   * board consistent, in the state the win and loss tests then choose: lost
   * on a mine, won once the counter reaches the number of safe tiles.
   */
  lemma ClickConsistent(tiles: map<int, TileState>, mines: set<int>, w: int, n: int,
                        mimes: int, k: int, t: int)
    requires Consistent(tiles, mines, w, n, mimes, k, Active)
    requires t in tiles && !tiles[t].clicked
    ensures Consistent(Click(tiles, t), mines, w, n, mimes, k + 1, Outcome(mines, n, mimes, k + 1, t))
  {
    var after := Click(tiles, t);
    ClickFacts(tiles, t);
    if t !in mines {
      SafeRevealedBound(after, mines, n);
    }
  }

  /** After set-up the game can still be won: fewer mines than tiles. */
  lemma MinesFewerThanTiles(mines: set<int>, n: int)
    requires n >= 1 && forall u :: u in mines ==> 1 <= u < n
    ensures |mines| < n
  {
    Placement.SubsetOfRangeSize(mines, 1, n);
  }

  // ---------------------------------------------------------------------
  // Revealing tiles, one at a time and by flood fill.

  /** Tile `t` marked as clicked, nothing else changed. */
  function Click(tiles: map<int, TileState>, t: int): map<int, TileState>
    requires t in tiles
  {
    tiles[t := tiles[t].(clicked := true)]
  }

  predicate Distinct(order: seq<int>)
  {
    forall i, j :: 0 <= i < j < |order| ==> order[i] != order[j]
  }

  /**
   * `b` arises from `a` by revealing the tiles of `order`, each hidden in `a`,
   * each once, and nothing else: contents and flags are as they were.
   */
  ghost predicate Grew(a: map<int, TileState>, b: map<int, TileState>, order: seq<int>)
  {
    && a.Keys == b.Keys
    && (forall u :: u in a ==> b[u].content == a[u].content && b[u].flagged == a[u].flagged)
    && (forall u :: u in a ==> (b[u].clicked <==> a[u].clicked || u in order))
    && (forall i :: 0 <= i < |order| ==> order[i] in a && !a[order[i]].clicked)
    && Distinct(order)
  }

  /** The `i`-th revealed tile was reached from an earlier zero tile in one flood step. */
  ghost predicate Reached(mines: set<int>, w: int, n: int, order: seq<int>, i: int)
    requires w > 0 && 0 <= i < |order|
  {
    exists j :: 0 <= j < i && IsZero(mines, w, n, order[j]) && FloodAdjacent(w, n, order[j], order[i])
  }

  /** Every tile after the first was reached from an earlier zero tile. */
  ghost predicate Rooted(mines: set<int>, w: int, n: int, order: seq<int>)
    requires w > 0
  {
    forall i :: 0 < i < |order| ==> Reached(mines, w, n, order, i)
  }

  /** Every zero tile of `order` has all its flood neighbours revealed in `tiles`. */
  ghost predicate Closed(tiles: map<int, TileState>, mines: set<int>, w: int, n: int, order: seq<int>)
    requires w > 0
  {
    forall i, v :: 0 <= i < |order| && IsZero(mines, w, n, order[i]) && FloodAdjacent(w, n, order[i], v)
      ==> v in tiles && tiles[v].clicked
  }

  /** How many tiles of `order` are flagged in `tiles`. */
  function FlaggedCount(tiles: map<int, TileState>, order: seq<int>): nat
  {
    if |order| == 0 then 0
    else FlaggedCount(tiles, order[..|order| - 1])
         + (if order[|order| - 1] in tiles && tiles[order[|order| - 1]].flagged then 1 else 0)
  }

  lemma ClickFacts(tiles: map<int, TileState>, t: int)
    requires t in tiles && !tiles[t].clicked
    ensures Revealed(Click(tiles, t)) == Revealed(tiles) + {t} && t !in Revealed(tiles)
    ensures |Revealed(Click(tiles, t))| == |Revealed(tiles)| + 1
    ensures Grew(tiles, Click(tiles, t), [t])
  {
    assert Revealed(Click(tiles, t)) == Revealed(tiles) + {t};
  }

  /** Revealing more tiles shrinks the hidden set: the flood fill's measure. */
  lemma GrewShrinksHidden(a: map<int, TileState>, b: map<int, TileState>, order: seq<int>)
    requires Grew(a, b, order) && |order| > 0
    ensures Hidden(b) < Hidden(a)
  {
    var t := order[0];
    assert t in order && t in a && t in b;
    assert b[t].clicked;
    assert t in Hidden(a) && t !in Hidden(b);
    forall u | u in Hidden(b) ensures u in Hidden(a) {
      assert u in b && !b[u].clicked;
    }
  }

  lemma {:induction false} GrewTrans(a: map<int, TileState>, b: map<int, TileState>, c: map<int, TileState>,
                                     o1: seq<int>, o2: seq<int>)
    requires Grew(a, b, o1) && Grew(b, c, o2)
    ensures Grew(a, c, o1 + o2)
  {
    var o := o1 + o2;
    forall i, j | 0 <= i < j < |o| ensures o[i] != o[j] {
      if j >= |o1| && i < |o1| {
        assert o[i] == o1[i] && o[j] == o2[j - |o1|];
        assert o1[i] in o1;
        assert b[o[i]].clicked && !b[o[j]].clicked;
      } else if i >= |o1| {
        assert o[i] == o2[i - |o1|] && o[j] == o2[j - |o1|];
      }
    }
    forall u | u in a ensures (c[u].clicked <==> a[u].clicked || u in o) {
      assert u in o <==> u in o1 || u in o2;
    }
    forall i | 0 <= i < |o| ensures o[i] in a && !a[o[i]].clicked {
      if i >= |o1| {
        assert o[i] == o2[i - |o1|];
      }
    }
  }

  lemma {:induction false} FlaggedCountAppend(tiles: map<int, TileState>, a: seq<int>, b: seq<int>)
    ensures FlaggedCount(tiles, a + b) == FlaggedCount(tiles, a) + FlaggedCount(tiles, b)
    decreases |b|
  {
    if |b| > 0 {
      FlaggedCountAppend(tiles, a, b[..|b| - 1]);
      assert (a + b)[..|a + b| - 1] == a + b[..|b| - 1];
    } else {
      assert a + b == a;
    }
  }

  lemma {:induction false} FlaggedCountStable(a: map<int, TileState>, b: map<int, TileState>, order: seq<int>)
    requires a.Keys == b.Keys && forall u :: u in a ==> b[u].flagged == a[u].flagged
    ensures FlaggedCount(a, order) == FlaggedCount(b, order)
    decreases |order|
  {
    if |order| > 0 {
      FlaggedCountStable(a, b, order[..|order| - 1]);
    }
  }

  /** Revealing more tiles keeps a region closed. */
  lemma ClosedStable(b: map<int, TileState>, c: map<int, TileState>, mines: set<int>, w: int, n: int,
                     order: seq<int>, more: seq<int>)
    requires w > 0 && Closed(b, mines, w, n, order) && Grew(b, c, more)
    ensures Closed(c, mines, w, n, order)
  {
  }

  lemma ClosedAppend(tiles: map<int, TileState>, mines: set<int>, w: int, n: int, a: seq<int>, b: seq<int>)
    requires w > 0 && Closed(tiles, mines, w, n, a) && Closed(tiles, mines, w, n, b)
    ensures Closed(tiles, mines, w, n, a + b)
  {
    var o := a + b;
    forall i, v | 0 <= i < |o| && IsZero(mines, w, n, o[i]) && FloodAdjacent(w, n, o[i], v)
      ensures v in tiles && tiles[v].clicked
    {
      if i >= |a| {
        assert o[i] == b[i - |a|];
      }
    }
  }

  /**
   * Appending the region flooded from a neighbour `b[0]` of the zero tile
   * `a[0]` keeps every tile reached from an earlier zero tile.
   */
  lemma RootedAppend(mines: set<int>, w: int, n: int, a: seq<int>, b: seq<int>)
    requires w > 0 && |a| > 0 && IsZero(mines, w, n, a[0]) && Rooted(mines, w, n, a)
    requires b != [] ==> Rooted(mines, w, n, b) && FloodAdjacent(w, n, a[0], b[0])
    ensures Rooted(mines, w, n, a + b)
  {
    var o := a + b;
    forall i | 0 < i < |o| ensures Reached(mines, w, n, o, i) {
      if i < |a| {
        assert Reached(mines, w, n, a, i);
        var j :| 0 <= j < i && IsZero(mines, w, n, a[j]) && FloodAdjacent(w, n, a[j], a[i]);
        assert o[j] == a[j];
      } else if i == |a| {
        assert o[0] == a[0] && o[i] == b[0];
      } else {
        var k := i - |a|;
        assert Reached(mines, w, n, b, k);
        var j :| 0 <= j < k && IsZero(mines, w, n, b[j]) && FloodAdjacent(w, n, b[j], b[k]);
        assert o[|a| + j] == b[j] && o[i] == b[k];
      }
    }
  }

  /**
   * What one call of the reveal does, seen from outside: starting from `a` it
   * reveals the tiles of `order`, beginning with `t`; a mine or a numbered
   * tile reveals only itself; every later tile was reached from an earlier
   * zero tile by one left/right/up/down step, and every zero tile it reveals
   * has all four of those neighbours revealed in `b`.
   */
  ghost predicate Flooded(a: map<int, TileState>, b: map<int, TileState>, mines: set<int>,
                          w: int, n: int, t: int, order: seq<int>)
    requires w > 0
  {
    && Grew(a, b, order)
    && |order| >= 1 && order[0] == t
    && (!IsZero(mines, w, n, t) ==> order == [t])
    && Rooted(mines, w, n, order)
    && Closed(b, mines, w, n, order)
  }

  /**
   * The flood fill never reveals a mine: every tile after the first is a
   * flood neighbour of a zero tile, and zero tiles have no mined flood
   * neighbour (tile n, which the counts skip, is never a mine).
   */
  lemma FloodRevealsNoMine(a: map<int, TileState>, b: map<int, TileState>, mines: set<int>,
                           w: int, n: int, t: int, order: seq<int>)
    requires w > 0 && n !in mines && Flooded(a, b, mines, w, n, t, order)
    ensures forall i :: 0 < i < |order| ==> order[i] !in mines
    ensures t !in mines ==> forall u :: u in order ==> u !in mines
  {
    forall i | 0 < i < |order| ensures order[i] !in mines {
      assert Reached(mines, w, n, order, i);
      var j :| 0 <= j < i && IsZero(mines, w, n, order[j]) && FloodAdjacent(w, n, order[j], order[i]);
      ZeroTileHasSafeFloodNeighbours(mines, w, n, order[j], order[i]);
    }
  }

  /** The accumulated region of a zero tile `acc[0]` after flooding from one more neighbour `v`. */
  lemma FloodStep(a: map<int, TileState>, b: map<int, TileState>, c: map<int, TileState>,
                  mines: set<int>, w: int, n: int, acc: seq<int>, o: seq<int>, v: int)
    requires w > 0 && |acc| > 0 && IsZero(mines, w, n, acc[0]) && FloodAdjacent(w, n, acc[0], v)
    requires Grew(a, b, acc) && Rooted(mines, w, n, acc) && Closed(b, mines, w, n, acc[1..])
    requires Grew(b, c, o)
    requires o != [] ==> o[0] == v && Rooted(mines, w, n, o) && Closed(c, mines, w, n, o)
    ensures Grew(a, c, acc + o) && Rooted(mines, w, n, acc + o) && Closed(c, mines, w, n, (acc + o)[1..])
    ensures (acc + o)[0] == acc[0] && |acc + o| == |acc| + |o|
    ensures FlaggedCount(a, acc + o) == FlaggedCount(a, acc) + FlaggedCount(b, o)
  {
    GrewTrans(a, b, c, acc, o);
    RootedAppend(mines, w, n, acc, o);
    FloodStepClosed(b, c, mines, w, n, acc, o);
    FloodStepFlags(a, b, acc, o);
  }

  lemma FloodStepClosed(b: map<int, TileState>, c: map<int, TileState>, mines: set<int>, w: int, n: int,
                        acc: seq<int>, o: seq<int>)
    requires w > 0 && |acc| > 0 && Closed(b, mines, w, n, acc[1..]) && Grew(b, c, o)
    requires o != [] ==> Closed(c, mines, w, n, o)
    ensures Closed(c, mines, w, n, (acc + o)[1..])
  {
    ClosedStable(b, c, mines, w, n, acc[1..], o);
    if o != [] {
      ClosedAppend(c, mines, w, n, acc[1..], o);
    }
    assert (acc + o)[1..] == acc[1..] + o;
  }

  lemma FloodStepFlags(a: map<int, TileState>, b: map<int, TileState>, acc: seq<int>, o: seq<int>)
    requires a.Keys == b.Keys && forall u :: u in a ==> b[u].flagged == a[u].flagged
    ensures FlaggedCount(a, acc + o) == FlaggedCount(a, acc) + FlaggedCount(b, o)
  {
    FlaggedCountAppend(a, acc, o);
    FlaggedCountStable(a, b, o);
  }

  /** A zero tile whose flood neighbours are all revealed closes the region it heads. */
  lemma FloodClose(b: map<int, TileState>, mines: set<int>, w: int, n: int, order: seq<int>)
    requires w > 0 && |order| > 0 && Closed(b, mines, w, n, order[1..])
    requires forall v :: FloodAdjacent(w, n, order[0], v) ==> v in b && b[v].clicked
    ensures Closed(b, mines, w, n, order)
  {
    ClosedAppend(b, mines, w, n, [order[0]], order[1..]);
    assert [order[0]] + order[1..] == order;
  }

  /** The first `k` directions from `u` that pass their edge test lead to revealed tiles. */
  ghost predicate Visited(tiles: map<int, TileState>, w: int, n: int, u: int, k: int)
    requires w > 0
  {
    forall d :: 0 <= d < k && FloodEdge(w, n, u, d) ==> FloodTarget(w, u, d) in tiles && tiles[FloodTarget(w, u, d)].clicked
  }

  /** Revealing more tiles keeps the visited directions revealed. */
  lemma VisitedStable(a: map<int, TileState>, b: map<int, TileState>, order: seq<int>, w: int, n: int, u: int, k: int)
    requires w > 0 && Visited(a, w, n, u, k) && Grew(a, b, order)
    ensures Visited(b, w, n, u, k)
  {
  }

  /** Direction `k` done: its edge test fails or its tile is revealed. */
  lemma VisitedExtend(tiles: map<int, TileState>, w: int, n: int, u: int, k: int)
    requires w > 0 && Visited(tiles, w, n, u, k)
    requires FloodEdge(w, n, u, k) ==> FloodTarget(w, u, k) in tiles && tiles[FloodTarget(w, u, k)].clicked
    ensures Visited(tiles, w, n, u, k + 1)
  {
  }

  /** Once all four directions are visited, every flood neighbour of `u` is revealed. */
  lemma VisitedAll(tiles: map<int, TileState>, w: int, n: int, u: int)
    requires w > 0 && Visited(tiles, w, n, u, 4)
    ensures forall v :: FloodAdjacent(w, n, u, v) ==> v in tiles && tiles[v].clicked
  {
    forall v | FloodAdjacent(w, n, u, v) ensures v in tiles && tiles[v].clicked {
      FloodDirections(w, n, u, v);
    }
  }

  /** Revealed tiles that avoid the mines are at most the non-mine tiles. */
  lemma SafeRevealedBound(tiles: map<int, TileState>, mines: set<int>, n: int)
    requires n >= 0 && IsBoard(tiles, n) && Revealed(tiles) !! mines
    requires forall u :: u in mines ==> 1 <= u <= n
    ensures |Revealed(tiles)| <= n - |mines|
  {
    SafeSize(n, mines);
    assert Revealed(tiles) <= Safe(n, mines);
    Placement.SubsetSize(Revealed(tiles), Safe(n, mines));
  }

  // ---------------------------------------------------------------------
  // Flags.

  /**
   * A right click on a tile, given the flags left: an unflagged hidden tile is
   * flagged if a flag is left; a flagged tile (hidden or not) is unflagged and
   * its flag returned; anything else is ignored.
   */
  function RightClick(tile: TileState, flags: int): (r: (TileState, int))
    ensures r.0.content == tile.content && r.0.clicked == tile.clicked
    ensures r.0.flagged && !tile.flagged ==> !tile.clicked && flags > 0 && r.1 == flags - 1
    ensures !r.0.flagged && tile.flagged ==> r.1 == flags + 1
    ensures r.0.flagged == tile.flagged ==> r.1 == flags
  {
    if !tile.flagged && !tile.clicked then
      if flags > 0 then (tile.(flagged := true), flags - 1) else (tile, flags)
    else if tile.flagged then (tile.(flagged := false), flags + 1)
    else (tile, flags)
  }

  /** The part of a reveal that touches one tile and the flag counter. */
  function RevealOne(tile: TileState, flags: int): (r: (TileState, int))
    ensures r.0.clicked && r.0.content == tile.content && r.0.flagged == tile.flagged
    ensures flags <= r.1 <= flags + 1 && (r.1 == flags + 1 <==> tile.flagged)
  {
    (tile.(clicked := true), if tile.flagged then flags + 1 else flags)
  }

  /** Setting or clearing a flag leaves the board consistent: flags are no part of the invariant. */
  lemma FlagConsistent(tiles: map<int, TileState>, mines: set<int>, w: int, n: int,
                       mimes: int, k: int, state: GameState, u: int, f: bool)
    requires Consistent(tiles, mines, w, n, mimes, k, state) && u in tiles
    ensures Consistent(tiles[u := tiles[u].(flagged := f)], mines, w, n, mimes, k, state)
  {
    assert Revealed(tiles[u := tiles[u].(flagged := f)]) == Revealed(tiles);
  }

  /** Flags are only taken while some are left, so the counter stays non-negative. */
  lemma RightClickKeepsFlagsNonNegative(tile: TileState, flags: int)
    ensures flags >= 0 ==> RightClick(tile, flags).1 >= 0
    ensures RightClick(tile, flags).1 < flags ==> flags > 0 && RightClick(tile, flags).1 == flags - 1
  {
  }

  /** Flagging and unflagging a hidden tile gives back the tile and the counter. */
  lemma RightClickTwiceRestores(tile: TileState, flags: int)
    requires !tile.clicked && (if tile.flagged then flags >= 0 else flags > 0)
    ensures var (t1, f1) := RightClick(tile, flags); RightClick(t1, f1) == (tile, flags)
  {
  }

  /**
   * A reveal does not clear the flag, so a revealed flagged tile can be
   * unflagged afterwards: flag, reveal, right click returns one flag more
   * than was taken.
   */
  lemma FlagReturnedTwice(tile: TileState, flags: int)
    requires !tile.clicked && !tile.flagged && flags > 0
    ensures var (t1, f1) := RightClick(tile, flags);
            var (t2, f2) := RevealOne(t1, f1);
            var (t3, f3) := RightClick(t2, f2);
            t3.clicked && !t3.flagged && f3 == flags + 1
  {
  }

  // ---------------------------------------------------------------------
  // Colour of a revealed number.

  datatype ColorClass = One | Two | Three | Four | FivePlus

  /**
   * The colour class a revealed tile gets: `parseInt` of its content, 1 to 4
   * each their own class, 5 and above one shared class, anything else
   * (0, "M", "null") none.
   */
  function SetColor(c: Content): (r: Option<ColorClass>)
    ensures r.Some? <==> c.Count? && c.n >= 1
    ensures c.Count? && c.n >= 5 ==> r == Some(FivePlus)
  {
    match c
    case Count(k) =>
      if k == 1 then Some(One)
      else if k == 2 then Some(Two)
      else if k == 3 then Some(Three)
      else if k == 4 then Some(Four)
      else if k >= 5 then Some(FivePlus)
      else None
    case _ => None
  }

  /** Counts 1 to 4 get pairwise different classes, none of them the shared one. */
  lemma SmallCountsDistinctColors(j: int, k: int)
    requires 1 <= j <= 4 && 1 <= k <= 4 && j != k
    ensures SetColor(Count(j)) != SetColor(Count(k)) && SetColor(Count(j)) != Some(FivePlus)
  {
  }
}
