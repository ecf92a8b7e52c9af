/**
 * The object-based variant of the reveal: every tile is an object of its own
 * with `content`, `clicked` and `flagged` fields, and a tile reveals itself
 * (and, from a zero tile, its hidden orthogonal neighbours) on a parent field
 * that holds the map from tile numbers to tile objects, the counters and the
 * game state.
 *
 * The parent keeps a ghost `view`, the board of tile values its tile objects
 * hold, so that the facts of `BoardState` apply to them unchanged.
 */
module TileObjects {

  import opened Grid
  import opened BoardState

  /** The counters and board a flood fill started from. */
  datatype Start = Start(view: map<int, TileState>, flags: int, clicked: int)

  class Tile {
    const orderNumber: int
    var content: Content
    var clicked: bool
    var flagged: bool

    /** A tile numbered `orderNumber`; content `null`, not clicked and not flagged unless given. */
    constructor (orderNumber: int, content: Content := Unset, clicked: bool := false, flagged: bool := false)
      ensures this.orderNumber == orderNumber && this.content == content
      ensures this.clicked == clicked && this.flagged == flagged
    {
      this.orderNumber := orderNumber;
      this.content := content;
      this.clicked := clicked;
      this.flagged := flagged;
    }

    function State(): TileState
      reads this
    {
      TileState(content, clicked, flagged)
    }

    /**
     * Reveals this hidden tile of a running game on `parent` and returns the
     * tiles revealed, in order.  A mine loses the game; any other content but
     * 0 reveals only this tile; a zero tile goes on to its hidden left, right,
     * upper and lower neighbours.
     */
    method RevealTile(parent: TileField) returns (order: seq<int>)
      requires parent.Valid() && parent.state == Active
      requires orderNumber in parent.tiles && parent.tiles[orderNumber] == this && !clicked
      modifies parent`view, parent`tilesClicked, parent`flags, parent`state, parent.tiles.Values
      decreases Hidden(parent.view), 2
      ensures parent.Valid()
      ensures Flooded(old(parent.view), parent.view, parent.mines, parent.width, parent.numberOfTiles, orderNumber, order)
      ensures parent.tilesClicked == old(parent.tilesClicked) + |order|
      ensures parent.flags == old(parent.flags) + FlaggedCount(old(parent.view), order)
      ensures parent.state == Outcome(parent.mines, parent.numberOfTiles, parent.mimes, parent.tilesClicked, orderNumber)
    {
      ghost var start := Start(parent.view, parent.flags, parent.tilesClicked);
      MarkRevealed(parent);
      order := [orderNumber];
      if content == Mime {
        parent.GameOver();
      } else if content != Count(0) {
        parent.CheckGameWon();
      } else {
        parent.CheckGameWon();
        order := RevealZeroNeighbours(parent, start);
      }
    }

    /**
     * The first part of a reveal: this tile is marked clicked and counted,
     * and a flag on it is returned to the parent (the tile stays flagged).
     */
    method MarkRevealed(parent: TileField)
      requires parent.Valid() && parent.state == Active
      requires orderNumber in parent.tiles && parent.tiles[orderNumber] == this && !clicked
      modifies this`clicked, parent`view, parent`tilesClicked, parent`flags
      ensures parent.view == Click(old(parent.view), orderNumber)
      ensures Grew(old(parent.view), parent.view, [orderNumber])
      ensures parent.tilesClicked == old(parent.tilesClicked) + 1
      ensures parent.flags == old(parent.flags) + FlaggedCount(old(parent.view), [orderNumber])
      ensures parent.Coupled()
      ensures Consistent(parent.view, parent.mines, parent.width, parent.numberOfTiles, parent.mimes, parent.tilesClicked,
                         Outcome(parent.mines, parent.numberOfTiles, parent.mimes, parent.tilesClicked, orderNumber))
    {
      ghost var before := parent.view;
      ClickFacts(before, orderNumber);
      ClickConsistent(before, parent.mines, parent.width, parent.numberOfTiles, parent.mimes, parent.tilesClicked, orderNumber);
      assert FlaggedCount(before, [orderNumber]) == if flagged then 1 else 0 by {
        assert [orderNumber][..0] == [];
      }
      clicked := true;
      parent.view := Click(parent.view, orderNumber);
      parent.tilesClicked := parent.tilesClicked + 1;
      if flagged {
        parent.flags := parent.flags + 1;
      }
    }

    /**
     * The zero-tile branch of the reveal: after this tile, its hidden left,
     * right, upper and lower neighbours are revealed in that order, each with
     * its own flood.  On return every flood neighbour of this tile is revealed.
     */
    method RevealZeroNeighbours(parent: TileField, ghost start: Start) returns (order: seq<int>)
      requires parent.FloodProgress(start, orderNumber, [orderNumber], 0)
      modifies parent`view, parent`tilesClicked, parent`flags, parent`state, parent.tiles.Values
      decreases Hidden(start.view), 1
      ensures parent.FloodProgress(start, orderNumber, order, 4)
      ensures Closed(parent.view, parent.mines, parent.width, parent.numberOfTiles, order)
    {
      var tileNum := orderNumber;
      order := [tileNum];
      for k := 0 to 4
        invariant parent.FloodProgress(start, tileNum, order, k)
      {
        var v := FloodTarget(parent.width, tileNum, k);
        order := RevealIfHidden(parent, tileNum, v, FloodEdge(parent.width, parent.numberOfTiles, tileNum, k), start, order, k);
      }
      VisitedAll(parent.view, parent.width, parent.numberOfTiles, tileNum);
      FloodClose(parent.view, parent.mines, parent.width, parent.numberOfTiles, order);
    }

    /**
     * The step in direction `k` of the flood from zero tile `t`: when the
     * edge test `inside` passes, the parent's tile `v` reveals itself if it
     * is still hidden, and the region grows by what that revealed.
     */
    method RevealIfHidden(parent: TileField, t: int, v: int, inside: bool, ghost start: Start,
                          acc: seq<int>, ghost k: int) returns (order: seq<int>)
      requires parent.FloodProgress(start, t, acc, k) && 0 <= k < 4
      requires v == FloodTarget(parent.width, t, k) && inside == FloodEdge(parent.width, parent.numberOfTiles, t, k)
      modifies parent`view, parent`tilesClicked, parent`flags, parent`state, parent.tiles.Values
      decreases Hidden(start.view), 0
      ensures parent.FloodProgress(start, t, order, k + 1)
    {
      order := acc;
      ghost var w, n := parent.width, parent.numberOfTiles;
      if inside {
        FloodDirections(w, n, t, v);
        ZeroTileHasSafeFloodNeighbours(parent.mines, w, n, t, v);
        ghost var before := parent.view;
        var o: seq<int> := [];
        var neighbour := parent.tiles[v];
        if !neighbour.clicked {
          HiddenSafeMeansActive(before, parent.mines, w, n, parent.mimes, parent.tilesClicked, parent.state, v);
          GrewShrinksHidden(start.view, before, acc);
          o := neighbour.RevealTile(parent);
        } else {
          assert acc + o == acc;
        }
        FloodStep(start.view, before, parent.view, parent.mines, w, n, acc, o, v);
        VisitedStable(before, parent.view, o, w, n, t, k);
        order := acc + o;
      }
      VisitedExtend(parent.view, w, n, t, k);
    }
  }

  /**
   * The parent a tile reveals itself on: the tile objects by number, the
   * board's size, the counters, the game state and the ghost set of mines.
   */
  class TileField {
    var width: int
    var numberOfTiles: int
    var mimes: int
    var flags: int
    var tilesClicked: int
    var state: GameState
    var tiles: map<int, Tile>
    ghost var view: map<int, TileState>
    ghost var mines: set<int>

    /**
     * The tile objects hold exactly the values of `view`, each under its own
     * number (so no object sits under two numbers).
     */
    ghost predicate Coupled()
      reads this`tiles, this`view, tiles.Values
    {
      && view.Keys == tiles.Keys
      && forall u :: u in tiles ==> tiles[u].orderNumber == u && tiles[u].State() == view[u]
    }

    /** The tile objects mirror a consistent board. */
    ghost predicate Valid()
      reads this, tiles.Values
    {
      Coupled() && Consistent(view, mines, width, numberOfTiles, mimes, tilesClicked, state)
    }

    /** A mine was revealed: the game is lost. */
    method GameOver()
      modifies this`state
      ensures state == Lost
    {
      state := Lost;
    }

    /** Wins the game when the counter of revealed tiles reaches the number of safe tiles. */
    method CheckGameWon()
      modifies this`state
      ensures state == if tilesClicked == numberOfTiles - mimes then Won else old(state)
    {
      if tilesClicked == numberOfTiles - mimes {
        state := Won;
      }
    }

    /**
     * The flood from zero tile `t` so far: starting from `start`, the tiles
     * of `order` (headed by `t`) are revealed and counted, the region is
     * rooted in `t` and closed except possibly at `t` itself, and the first
     * `k` directions from `t` are visited.
     */
    ghost predicate FloodProgress(start: Start, t: int, order: seq<int>, k: int)
      reads this, tiles.Values
    {
      && Valid() && (state == Active || state == Won)
      && |order| > 0 && order[0] == t && IsZero(mines, width, numberOfTiles, t)
      && 1 <= t <= numberOfTiles
      && Grew(start.view, view, order) && Rooted(mines, width, numberOfTiles, order)
      && Closed(view, mines, width, numberOfTiles, order[1..])
      && Visited(view, width, numberOfTiles, t, k)
      && tilesClicked == start.clicked + |order|
      && flags == start.flags + FlaggedCount(start.view, order)
    }
  }
}
