/**
 * The playing field: the object that lays out the board, places the mines,
 * numbers the tiles, reacts to left and right clicks, counts flags and
 * revealed tiles, and decides when the game is lost or won.
 *
 * The tiles are the map from tile number to tile state; the mines are a
 * ghost set that the contents reflect ("M" exactly on the mines).  The
 * random draws of mine placement are an argument.  Running timers are
 * counted in `intervals`: the constructor and every new game start one, a
 * loss or a win stops the latest one.
 */
module Field {

  import opened Grid
  import opened Placement
  import opened BoardState
  import opened TimerModel

  const MinHeight := 10
  const MaxHeight := 16
  const MinWidth := 10
  const MaxWidth := 30

  /** The counters and board a flood fill started from. */
  datatype Snapshot = Snapshot(tiles: map<int, TileState>, flags: int, clicked: int, intervals: int, finalTime: string)

  class PlayingField {
    var height: int
    var width: int
    var numberOfTiles: int
    var mimes: int
    var flags: int
    var tiles: map<int, TileState>
    var tilesClicked: int
    var timeElapsed: nat
    var intervals: nat
    var state: GameState
    var finalTime: string
    ghost var mines: set<int>

    /** The field's invariant: dimensions in range and a consistent board. */
    ghost predicate Valid()
      reads this
    {
      && MinHeight <= height <= MaxHeight && MinWidth <= width <= MaxWidth
      && numberOfTiles == height * width
      && Consistent(tiles, mines, width, numberOfTiles, mimes, tilesClicked, state)
      && (state == Active ==> intervals >= 1)
    }

    /** The contents mark exactly the mines. */
    ghost predicate MarksMines()
      reads this
    {
      forall u :: u in tiles ==> (tiles[u].content == Mime <==> u in mines)
    }

    /**
     * A field of the given size (defaults 9 by 9 with 10 mines), laid out
     * like a new game; the page attaches no input listener here, so the
     * field stays in `Setup` until a new game is started.
     */
    constructor (height: int := 9, width: int := 9, numberOfMimes: int := 10, draws: seq<int> := [])
      requires DrawsFit(draws, Clamp(height, MinHeight, MaxHeight) * Clamp(width, MinWidth, MaxWidth))
      ensures Valid() && state == Setup
      ensures this.height == Clamp(height, MinHeight, MaxHeight) && this.width == Clamp(width, MinWidth, MaxWidth)
      ensures mimes == ClampMimes(numberOfMimes, numberOfTiles) && flags == numberOfMimes
      ensures tilesClicked == 0 && timeElapsed == 0 && intervals == 1
      ensures mines == Place(draws, numberOfTiles, mimes, {})
      ensures |mines| == mimes ==> LaidOut(tiles, mines, this.width, numberOfTiles)
      ensures forall u :: u in tiles ==> !tiles[u].clicked && !tiles[u].flagged
      ensures finalTime == ""
    {
      this.height := height;
      this.width := width;
      mimes := numberOfMimes;
      flags := numberOfMimes;
      tiles := map[];
      tilesClicked := 0;
      timeElapsed := 0;
      intervals := 1;
      state := Setup;
      finalTime := "";
      mines := {};
      new;
      var complete := BuildBoard(draws);
    }

    /**
     * The set-up the constructor and a new game share: clamp the size and
     * create the rows, number the tiles, place the mines and, once all are
     * placed, count every tile's mine neighbours.
     */
    method BuildBoard(draws: seq<int>) returns (complete: bool)
      requires tiles == map[] && mines == {}
      requires DrawsFit(draws, Clamp(height, MinHeight, MaxHeight) * Clamp(width, MinWidth, MaxWidth))
      modifies this`height, this`width, this`numberOfTiles, this`mimes, this`tiles, this`mines
      ensures height == Clamp(old(height), MinHeight, MaxHeight) && width == Clamp(old(width), MinWidth, MaxWidth)
      ensures numberOfTiles == height * width && mimes == ClampMimes(old(mimes), numberOfTiles)
      ensures mines == Place(draws, numberOfTiles, mimes, {})
      ensures complete <==> |mines| == mimes
      ensures complete ==> LaidOut(tiles, mines, width, numberOfTiles)
      ensures forall u :: u in tiles ==> !tiles[u].clicked && !tiles[u].flagged
      ensures Consistent(tiles, mines, width, numberOfTiles, mimes, 0, Setup)
      ensures complete ==> Consistent(tiles, mines, width, numberOfTiles, mimes, 0, Active)
    {
      CreateTileRows();
      CreateTileMap();
      complete := CreateMimes(draws);
      if complete {
        CreateMimeNeighbors();
        MinesFewerThanTiles(mines, numberOfTiles);
      }
      NoneRevealed(tiles);
    }

    /** Clamps the dimensions and counts the tiles row by row. */
    method CreateTileRows()
      modifies this`height, this`width, this`numberOfTiles
      ensures height == Clamp(old(height), MinHeight, MaxHeight)
      ensures width == Clamp(old(width), MinWidth, MaxWidth)
      ensures numberOfTiles == height * width
    {
      if height < MinHeight { height := MinHeight; }
      if width < MinWidth { width := MinWidth; }
      if height > MaxHeight { height := MaxHeight; }
      if width > MaxWidth { width := MaxWidth; }
      var count := 0;
      for row := 0 to height
        invariant count == row * width
      {
        count := count + width;
      }
      numberOfTiles := count;
    }

    /** Numbers the freshly created tiles 1..numberOfTiles. */
    method CreateTileMap()
      requires numberOfTiles >= 0 && tiles == map[]
      modifies this`tiles
      ensures IsBoard(tiles, numberOfTiles)
      ensures forall u :: u in tiles ==> tiles[u] == Fresh
    {
      for tileNum := 1 to numberOfTiles + 1
        invariant forall u :: u in tiles <==> 1 <= u < tileNum
        invariant forall u :: u in tiles ==> tiles[u] == Fresh
      {
        tiles := tiles[tileNum := Fresh];
      }
    }

    /**
     * Clamps the number of mines and places them from the draws.  `complete`
     * tells whether all were placed before the draws ran out; the source
     * loops until they are.
     */
    method CreateMimes(draws: seq<int>) returns (complete: bool)
      requires numberOfTiles >= 1 && IsBoard(tiles, numberOfTiles) && mines == {}
      requires forall u :: u in tiles ==> tiles[u] == Fresh
      requires DrawsFit(draws, numberOfTiles)
      modifies this`mimes, this`tiles, this`mines
      ensures mimes == ClampMimes(old(mimes), numberOfTiles)
      ensures mines == Place(draws, numberOfTiles, mimes, {})
      ensures complete <==> |mines| == mimes
      ensures forall u :: u in mines ==> 1 <= u < numberOfTiles
      ensures IsBoard(tiles, numberOfTiles)
      ensures forall u :: u in tiles ==> tiles[u] == (if u in mines then Fresh.(content := Mime) else Fresh)
    {
      if mimes > numberOfTiles {
        mimes := numberOfTiles;
      } else if mimes < 10 {
        mimes := 10;
      }
      var n, target := numberOfTiles, mimes;
      var board := tiles;
      ghost var laid: set<int> := {};
      var mimesLeft := mimes;
      var i := 0;
      while mimesLeft > 0 && i < |draws|
        invariant 0 <= i <= |draws| && mimesLeft >= 0
        invariant Place(draws, n, target, {}) == PlaceFrom(draws, i, n, mimesLeft, laid)
        invariant |laid| + mimesLeft == target
        invariant forall u :: u in laid ==> 1 <= u <= n
        invariant IsBoard(board, n)
        invariant forall u :: u in board ==> board[u] == (if u in laid then Fresh.(content := Mime) else Fresh)
      {
        var randomIndex := draws[i];
        if randomIndex in board {
          assert board[randomIndex].content != Mime <==> randomIndex !in laid;
          if board[randomIndex].content != Mime {
            assert randomIndex !in laid && |laid + {randomIndex}| == |laid| + 1;
            board := board[randomIndex := board[randomIndex].(content := Mime)];
            laid := laid + {randomIndex};
            mimesLeft := mimesLeft - 1;
          }
        }
        i := i + 1;
      }
      tiles, mines := board, laid;
      complete := mimesLeft == 0;
      LastTileNeverMined(draws, 0, numberOfTiles, mimes, {});
    }

    /** Whether tile `tileNum` holds a mine. */
    function CheckIfMimeByTileNum(tileNum: int): (r: bool)
      reads this
      requires tileNum in tiles && MarksMines()
      ensures r <==> tileNum in mines
    {
      tiles[tileNum].content == Mime
    }

    /** Whether tile `tileNum` is revealed. */
    function CheckIfClickedByTileNum(tileNum: int): (r: bool)
      reads this
      requires tileNum in tiles
      ensures r <==> tileNum in Revealed(tiles)
    {
      tiles[tileNum].clicked
    }

    /**
     * The number of mines among the eight neighbours of `tileNum`, each
     * looked up behind the source's edge test.
     */
    method CountMimeNeighbors(tileNum: int) returns (mimeNeighbors: nat)
      requires MinWidth <= width && IsBoard(tiles, numberOfTiles) && MarksMines() && 1 <= tileNum <= numberOfTiles
      ensures mimeNeighbors == MimeNeighbours(mines, width, numberOfTiles, tileNum)
    {
      var w, n := width, numberOfTiles;
      mimeNeighbors := 0;
      var left := tileNum - 1;
      mimeNeighbors := AddIfMime(mimeNeighbors, left, left > 0 && left % w != 0);
      var right := tileNum + 1;
      mimeNeighbors := AddIfMime(mimeNeighbors, right, right < n && right % w != 1);
      var up := tileNum - w;
      mimeNeighbors := AddIfMime(mimeNeighbors, up, up > 0);
      var down := tileNum + w;
      mimeNeighbors := AddIfMime(mimeNeighbors, down, down <= n);
      var leftUp := tileNum - 1 - w;
      mimeNeighbors := AddIfMime(mimeNeighbors, leftUp, leftUp > 0 && leftUp % w != 0);
      var rightUp := tileNum + 1 - w;
      mimeNeighbors := AddIfMime(mimeNeighbors, rightUp, rightUp > 0 && rightUp % w != 1);
      var leftDown := tileNum - 1 + w;
      mimeNeighbors := AddIfMime(mimeNeighbors, leftDown, leftDown < n && leftDown % w != 0);
      var rightDown := tileNum + 1 + w;
      mimeNeighbors := AddIfMime(mimeNeighbors, rightDown, rightDown < n && rightDown % w != 1);
      assert mimeNeighbors == MimeNeighbours(mines, w, n, tileNum);
    }

    /** One of the eight neighbour tests: counts tile `u` when its edge test passed and it is a mine. */
    method AddIfMime(count: nat, u: int, inside: bool) returns (r: nat)
      requires IsBoard(tiles, numberOfTiles) && MarksMines() && (inside ==> 1 <= u <= numberOfTiles)
      ensures r == count + Hit(mines, u, inside)
    {
      r := count;
      if inside {
        if CheckIfMimeByTileNum(u) { r := r + 1; }
      }
    }

    /** Writes on every tile that is not a mine the number of mines around it. */
    method CreateMimeNeighbors()
      requires MinWidth <= width && numberOfTiles >= 1 && IsBoard(tiles, numberOfTiles)
      requires forall u :: u in tiles ==> tiles[u] == (if u in mines then Fresh.(content := Mime) else Fresh)
      modifies this`tiles
      ensures IsBoard(tiles, numberOfTiles) && LaidOut(tiles, mines, width, numberOfTiles)
      ensures forall u :: u in tiles ==> !tiles[u].clicked && !tiles[u].flagged
    {
      for tileNum := 1 to numberOfTiles + 1
        invariant IsBoard(tiles, numberOfTiles) && MarksMines()
        invariant forall u :: u in tiles ==> !tiles[u].clicked && !tiles[u].flagged
        invariant forall u :: u in tiles && u < tileNum ==>
          tiles[u].content == (if u in mines then Mime else Count(MimeNeighbours(mines, width, numberOfTiles, u)))
      {
        if !CheckIfMimeByTileNum(tileNum) {
          var mimeNeighbors := CountMimeNeighbors(tileNum);
          tiles := tiles[tileNum := tiles[tileNum].(content := Count(mimeNeighbors))];
        }
      }
    }

    /** A mine was revealed: the game is lost and the timer stops. */
    method GameOver()
      requires intervals >= 1
      modifies this`state, this`intervals
      ensures state == Lost && intervals == old(intervals) - 1
    {
      state := Lost;
      intervals := intervals - 1;
    }

    /** All safe tiles are revealed: the game is won, the final time shown and the timer stopped. */
    method GameWon()
      requires intervals >= 1
      modifies this`state, this`finalTime, this`intervals
      ensures state == Won && intervals == old(intervals) - 1
      ensures finalTime == FormatTime(timeElapsed)
    {
      var minutes, seconds := DisplayTexts(timeElapsed);
      finalTime := minutes + ":" + seconds;
      state := Won;
      intervals := intervals - 1;
    }

    /** Wins the game when the counter of revealed tiles reaches the number of safe tiles. */
    method CheckGameWon()
      requires intervals >= 1
      modifies this`state, this`finalTime, this`intervals
      ensures tilesClicked == numberOfTiles - mimes ==>
        state == Won && finalTime == FormatTime(timeElapsed) && intervals == old(intervals) - 1
      ensures tilesClicked != numberOfTiles - mimes ==>
        state == old(state) && finalTime == old(finalTime) && intervals == old(intervals)
    {
      if tilesClicked == numberOfTiles - mimes {
        GameWon();
      }
    }

    /**
     * Reveals hidden tile `t` of a running game and returns the tiles revealed,
     * in order.  A mine loses the game; a numbered tile reveals only itself; a
     * zero tile goes on to its hidden left, right, upper and lower neighbours.
     */
    method RevealTile(t: int) returns (order: seq<int>)
      requires Valid() && state == Active && t in tiles && !tiles[t].clicked
      modifies this`tiles, this`tilesClicked, this`flags, this`state, this`finalTime, this`intervals
      decreases Hidden(tiles), 2
      ensures Valid()
      ensures Flooded(old(tiles), tiles, mines, width, numberOfTiles, t, order)
      ensures tilesClicked == old(tilesClicked) + |order|
      ensures flags == old(flags) + FlaggedCount(old(tiles), order)
      ensures state == Outcome(mines, numberOfTiles, mimes, tilesClicked, t)
      ensures intervals == old(intervals) - (if state == Active then 0 else 1)
      ensures finalTime == (if state == Won then FormatTime(timeElapsed) else old(finalTime))
    {
      ghost var start := Snapshot(tiles, flags, tilesClicked, intervals, finalTime);
      MarkRevealed(t);
      order := [t];
      if tiles[t].content == Mime {
        GameOver();
      } else if tiles[t].content != Count(0) {
        CheckGameWon();
      } else {
        CheckGameWon();
        order := RevealZeroNeighbours(t, start);
      }
    }

    /**
     * The first part of a reveal: tile `t` is marked revealed and counted,
     * and a flag on it is returned (the tile stays flagged).
     */
    method MarkRevealed(t: int)
      requires Valid() && state == Active && t in tiles && !tiles[t].clicked
      modifies this`tiles, this`tilesClicked, this`flags
      ensures tiles == Click(old(tiles), t) && Grew(old(tiles), tiles, [t])
      ensures tilesClicked == old(tilesClicked) + 1
      ensures flags == old(flags) + FlaggedCount(old(tiles), [t])
      ensures Consistent(tiles, mines, width, numberOfTiles, mimes, tilesClicked,
                         Outcome(mines, numberOfTiles, mimes, tilesClicked, t))
    {
      ClickFacts(tiles, t);
      ClickConsistent(tiles, mines, width, numberOfTiles, mimes, tilesClicked, t);
      assert FlaggedCount(tiles, [t]) == if tiles[t].flagged then 1 else 0 by {
        assert [t][..0] == [];
      }
      tiles := Click(tiles, t);
      tilesClicked := tilesClicked + 1;
      if tiles[t].flagged {
        flags := flags + 1;
      }
    }

    /**
     * The zero-tile branch of the reveal: after `t` itself, its hidden left,
     * right, upper and lower neighbours are revealed in that order, each with
     * its own flood.  On return every flood neighbour of `t` is revealed.
     */
    method RevealZeroNeighbours(t: int, ghost start: Snapshot) returns (order: seq<int>)
      requires FloodProgress(start, t, [t], 0)
      modifies this`tiles, this`tilesClicked, this`flags, this`state, this`finalTime, this`intervals
      decreases Hidden(start.tiles), 1
      ensures FloodProgress(start, t, order, 4) && Closed(tiles, mines, width, numberOfTiles, order)
    {
      order := [t];
      for k := 0 to 4
        invariant FloodProgress(start, t, order, k)
      {
        var v := FloodTarget(width, t, k);
        order := RevealIfHidden(t, v, FloodEdge(width, numberOfTiles, t, k), start, order, k);
      }
      VisitedAll(tiles, width, numberOfTiles, t);
      FloodClose(tiles, mines, width, numberOfTiles, order);
    }

    /**
     * The flood from zero tile `t` so far: starting from `start`, the tiles
     * of `order` (headed by `t`) are revealed and counted, the region is
     * rooted in `t` and closed except possibly at `t` itself, and the first
     * `k` directions from `t` are visited.
     */
    ghost predicate FloodProgress(start: Snapshot, t: int, order: seq<int>, k: int)
      reads this
    {
      && Valid() && (state == Active || state == Won)
      && |order| > 0 && order[0] == t && IsZero(mines, width, numberOfTiles, t)
      && 1 <= t <= numberOfTiles
      && Grew(start.tiles, tiles, order) && Rooted(mines, width, numberOfTiles, order)
      && Closed(tiles, mines, width, numberOfTiles, order[1..])
      && Visited(tiles, width, numberOfTiles, t, k)
      && tilesClicked == start.clicked + |order|
      && flags == start.flags + FlaggedCount(start.tiles, order)
      && intervals == start.intervals - (if state == Active then 0 else 1)
      && finalTime == (if state == Won then FormatTime(timeElapsed) else start.finalTime)
    }

    /**
     * The step in direction `k` of the flood from the zero tile `t`: when the
     * edge test `inside` passes, reveals neighbour `v` if it is still hidden,
     * and returns the region extended with what that revealed.
     */
    method RevealIfHidden(t: int, v: int, inside: bool, ghost start: Snapshot, acc: seq<int>, ghost k: int)
      returns (order: seq<int>)
      requires FloodProgress(start, t, acc, k) && 0 <= k < 4
      requires v == FloodTarget(width, t, k) && inside == FloodEdge(width, numberOfTiles, t, k)
      modifies this`tiles, this`tilesClicked, this`flags, this`state, this`finalTime, this`intervals
      decreases Hidden(start.tiles), 0
      ensures FloodProgress(start, t, order, k + 1)
    {
      order := acc;
      if inside {
        FloodDirections(width, numberOfTiles, t, v);
        ZeroTileHasSafeFloodNeighbours(mines, width, numberOfTiles, t, v);
        ghost var before := tiles;
        var o: seq<int> := [];
        if !tiles[v].clicked {
          HiddenSafeMeansActive(tiles, mines, width, numberOfTiles, mimes, tilesClicked, state, v);
          GrewShrinksHidden(start.tiles, tiles, acc);
          o := RevealTile(v);
        } else {
          assert acc + o == acc;
        }
        FloodStep(start.tiles, before, tiles, mines, width, numberOfTiles, acc, o, v);
        VisitedStable(before, tiles, o, width, numberOfTiles, t, k);
        order := acc + o;
      }
      VisitedExtend(tiles, width, numberOfTiles, t, k);
    }

    /**
     * A left click on `target`: while the game runs (input listeners
     * attached), a hidden tile is revealed; anything else is ignored.
     */
    method HandleTileClick(target: int) returns (order: seq<int>)
      requires Valid()
      modifies this`tiles, this`tilesClicked, this`flags, this`state, this`finalTime, this`intervals
      ensures Valid()
      ensures !(old(state) == Active && target in old(tiles) && !old(tiles)[target].clicked) ==>
        order == [] && tiles == old(tiles) && tilesClicked == old(tilesClicked) && flags == old(flags)
        && state == old(state) && finalTime == old(finalTime) && intervals == old(intervals)
      ensures old(state) == Active && target in old(tiles) && !old(tiles)[target].clicked ==>
        && Flooded(old(tiles), tiles, mines, width, numberOfTiles, target, order)
        && tilesClicked == old(tilesClicked) + |order|
        && flags == old(flags) + FlaggedCount(old(tiles), order)
        && state == Outcome(mines, numberOfTiles, mimes, tilesClicked, target)
        && intervals == old(intervals) - (if state == Active then 0 else 1)
        && finalTime == (if state == Won then FormatTime(timeElapsed) else old(finalTime))
    {
      order := [];
      if state == Active && target in tiles && !tiles[target].clicked {
        order := RevealTile(target);
      }
    }

    /**
     * A right click on `target` while the game runs: a hidden unflagged tile
     * takes a flag if one is left; a flagged tile, revealed or not, gives its
     * flag back; anything else is ignored.
     */
    method HandleRightClick(target: int)
      requires Valid()
      modifies this`tiles, this`flags
      ensures Valid()
      ensures old(state) == Active && target in old(tiles) ==>
        tiles == old(tiles)[target := RightClick(old(tiles)[target], old(flags)).0]
        && flags == RightClick(old(tiles)[target], old(flags)).1
      ensures !(old(state) == Active && target in old(tiles)) ==> tiles == old(tiles) && flags == old(flags)
    {
      if state == Active && target in tiles {
        var tile := tiles[target];
        if !tile.flagged && !tile.clicked {
          if flags > 0 {
            FlagConsistent(tiles, mines, width, numberOfTiles, mimes, tilesClicked, state, target, true);
            tiles := tiles[target := tile.(flagged := true)];
            flags := flags - 1;
          }
        } else if tile.flagged {
          FlagConsistent(tiles, mines, width, numberOfTiles, mimes, tilesClicked, state, target, false);
          tiles := tiles[target := tile.(flagged := false)];
          flags := flags + 1;
        }
      }
    }

    /** One tick of a running timer: a second more, and the minutes and seconds texts shown. */
    method RefreshTimeDisplay() returns (minutes: string, seconds: string)
      modifies this`timeElapsed
      ensures timeElapsed == old(timeElapsed) + 1
      ensures minutes == Decimal(timeElapsed / 60) && seconds == SecondsText(timeElapsed % 60)
    {
      timeElapsed := timeElapsed + 1;
      minutes, seconds := DisplayTexts(timeElapsed);
    }

    /**
     * Starts a new game of the given size: counters reset, one more timer
     * started, the board laid out anew and the input listeners attached.
     * `complete` tells whether the draws sufficed to place every mine; when
     * they do not, the source would still be drawing, so the field stays in
     * `Setup` without listeners.
     */
    method NewGame(height: int, width: int, numberOfMimes: int, draws: seq<int>) returns (complete: bool)
      requires DrawsFit(draws, Clamp(height, MinHeight, MaxHeight) * Clamp(width, MinWidth, MaxWidth))
      modifies this
      ensures Valid()
      ensures this.height == Clamp(height, MinHeight, MaxHeight) && this.width == Clamp(width, MinWidth, MaxWidth)
      ensures mimes == ClampMimes(numberOfMimes, numberOfTiles) && flags == numberOfMimes
      ensures tilesClicked == 0 && timeElapsed == 0 && intervals == old(intervals) + 1
      ensures mines == Place(draws, numberOfTiles, mimes, {})
      ensures complete <==> |mines| == mimes
      ensures state == (if complete then Active else Setup)
      ensures forall u :: u in tiles ==> !tiles[u].clicked && !tiles[u].flagged
      ensures finalTime == old(finalTime)
    {
      this.height := height;
      this.width := width;
      mimes := numberOfMimes;
      flags := numberOfMimes;
      tiles := map[];
      tilesClicked := 0;
      timeElapsed := 0;
      intervals := intervals + 1;
      mines := {};
      complete := BuildBoard(draws);
      state := if complete then Active else Setup;
    }
  }
}
