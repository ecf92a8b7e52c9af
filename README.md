# Mimesweeper board model

A Dafny model of the board logic of a browser minesweeper ("mimesweeper")
game: the `PlayingField` class that lays out the board, places the mines
("mimes"), numbers the tiles, and reacts to left and right clicks; the
object-based `Tile` variant of the reveal; the `Timer` and its `m:ss`
rendering; and the early single-script prototype of board set-up and mine
placement.

Modules:

- `Grid` (grid.dfy): 1-based row-major tile numbers, the playing field's
  eight neighbour tests and four flood-fill tests as written, and proofs that
  they agree with a plain (row, column) reference geometry.
- `Placement` (placement.dfy): the clamped mine count and the rejection
  sampling loop, as a function of the random draws.
- `BoardState` (board_state.dfy): tile and game state as values; the board
  invariant `Consistent`; clicks, flood-fill regions, flags and colour classes.
- `Field` (field.dfy): the `PlayingField` class, its fields updated in place.
- `TileObjects` (tile_objects.dfy): `Tile` objects that reveal themselves on a
  parent field, coupled to the value board by a ghost `view`.
- `TimerModel` (timer.dfy): the elapsed-seconds counter, the display texts and
  the `m:ss` final time, with a parser that inverts the rendering.
- `Prototype` (prototype.dfy): the page script that appends tile elements
  and flips `data-mime` flags.

Game state stands for the attached input listeners. `Active` means they are
attached. `Won` and `Lost` mean they were removed. `Setup` means none are
attached yet: the constructor never attaches them, so a field only becomes
`Active` through `NewGame`. `Math.random()` becomes a sequence of draws,
each `floor(random * n)`, given as an argument. Timers are counted in
`intervals`: the constructor and each new game start one, and a loss or a
win stops one.

The model keeps these behaviours of the code:

- A reveal does not clear a tile's flag. It only hands the flag back to the
  counter, so a later right click hands it back again (`FlagReturnedTwice`).
- Draws are `0..n-1` but tiles are numbered `1..n`. So draw 0 is skipped and
  tile `n` never becomes a mine (`LastTileNeverMined`).
- For the same reason, asking for as many mines as tiles never finishes
  (`PlacementCannotFillBoard`).
- The minimum board size is 10 by 10.
- The right and lower-diagonal neighbour tests compare with `< n`. They miss
  only tile `n`, which is never a mine (`CountMatchesGeometry`).

## Model

| member | source | states |
|---|---|---|
| Grid.Clamp | js/PlayingField.js:39-42 | the clamped dimension lies in `lo..hi` and an in-range request is kept |
| Grid.ClampNearest | js/PlayingField.js:39-42 | the clamped dimension is the in-range value closest to the request |
| Grid.Coordinates | js/PlayingField.js:80-87 | every tile number 1..h*w has a row below h and a column below w, and is that cell's number |
| Grid.TileNumInjective | js/PlayingField.js:80-87 | distinct cells get distinct tile numbers |
| Grid.MimeNeighbours | js/PlayingField.js:139-172 | the eight guarded neighbour tests count at most 8 mines |
| Grid.LeftMatches | js/PlayingField.js:141-144 | the left test passes exactly when the cell has a left neighbour, and names it |
| Grid.RightMatches | js/PlayingField.js:145-148 | the right test (`< n`) passes exactly off the last column, except at tile n-1 whose right neighbour is tile n |
| Grid.UpMatches | js/PlayingField.js:149-152 | the up test passes exactly below the first row, and names the cell above |
| Grid.DownMatches | js/PlayingField.js:153-156 | the down test passes exactly above the last row, and names the cell below |
| Grid.UpLeftMatches | js/PlayingField.js:157-160 | the up-left test passes exactly when that diagonal cell exists |
| Grid.UpRightMatches | js/PlayingField.js:161-164 | the up-right test passes exactly when that diagonal cell exists |
| Grid.DownLeftMatches | js/PlayingField.js:165-168 | the down-left test passes exactly when that diagonal cell exists |
| Grid.DownRightMatches | js/PlayingField.js:169-172 | the down-right test passes exactly when that diagonal cell exists and is not tile n |
| Grid.CountMatchesGeometry | js/PlayingField.js:136-176 | when tile n is not a mine, the 1-based count equals the number of mines among the in-board (row, column) neighbours |
| Grid.FloodDirections | js/PlayingField.js:303-328 | the four tests tried in order (left, right, up, down) are exactly the flood steps |
| Grid.FloodAdjacent | js/PlayingField.js:303-328 | the flood's four steps (left, right, up, down with their edge tests); a step from a tile of the board lands on another tile of the board |
| Grid.FloodTarget | js/PlayingField.js:305-323 | the tile tried in each direction is one to the left or right, or one row up or down |
| Grid.FloodEdge | js/PlayingField.js:306-324 | a passing edge test names one of the four directions and a target on the board |
| Grid.RightFloodTest | js/PlayingField.js:311-316 | the flood's right test (`<= n`) passes exactly off the last column |
| Grid.FloodMatchesGeometry | js/PlayingField.js:303-328 | flood steps join exactly the cells that share a side; never diagonals, never across an edge |
| Grid.ZeroTileHasSafeFloodNeighbours | js/PlayingField.js:299-328 | a zero tile's flood neighbours are not mines when tile n is not one |
| Placement.ClampMimes | js/PlayingField.js:96-97 | more mines than tiles becomes the number of tiles; fewer than 10 becomes 10 |
| Placement.PlaceFrom | js/PlayingField.js:101-112 | the placement loop from a given draw on: already placed mines are kept (what it adds is stated by `PlaceProperties`) |
| Placement.Place | js/PlayingField.js:99-112 | the whole loop from the first draw with no mine placed; never drops a mine (the board-level facts are `PlaceProperties`, `LastTileNeverMined`, `PlacementCannotFillBoard`) |
| Placement.PlaceProperties | js/PlayingField.js:101-112 | placement only adds drawn tiles in 1..n, never removes one, and places at most the count wanted |
| Placement.LastTileNeverMined | js/PlayingField.js:102-105 | draws in 0..n-1 never make tile n a mine |
| Placement.PlacementCannotFillBoard | js/PlayingField.js:96-112 | whatever the draws, fewer than n mines are placed when n are wanted |
| Placement.PlacementCanFinish | js/PlayingField.js:101-112 | any count below n is reached by the draws 1..m |
| BoardState.RevealedAreSafe | js/PlayingField.js:201-205 | in a running or won game every revealed tile is safe, and there are n - mimes safe tiles |
| BoardState.WonIffAllSafeRevealed | js/PlayingField.js:201-205 | the counter test means what it should: won exactly when every safe tile is revealed |
| BoardState.HiddenSafeMeansActive | js/PlayingField.js:299-328 | while a safe tile is hidden the game is not won, so the flood only ever reveals in a running game |
| BoardState.ClickConsistent | js/PlayingField.js:282-300 | revealing one hidden tile and counting it keeps the board consistent, in the state the loss and win tests choose |
| BoardState.MinesFewerThanTiles | js/PlayingField.js:93-113 | after set-up there are fewer mines than tiles |
| BoardState.ClickFacts | js/PlayingField.js:283-284 | a reveal adds exactly that tile to the revealed set and one to its size |
| BoardState.GrewShrinksHidden | js/PlayingField.js:305-328 | each reveal shrinks the hidden set, so the recursion ends |
| BoardState.FloodRevealsNoMine | js/PlayingField.js:299-328 | a flood from a safe tile never reveals a mine |
| BoardState.FloodStep | js/PlayingField.js:305-328 | appending a neighbour's flood keeps the region growing, rooted, closed and its flags counted |
| BoardState.FloodClose | js/PlayingField.js:299-329 | once all four neighbours of the zero tile are revealed the whole region is closed |
| BoardState.VisitedAll | js/PlayingField.js:303-328 | after the four tests every flood neighbour of the zero tile is revealed |
| BoardState.SafeRevealedBound | js/PlayingField.js:201-205 | without a revealed mine, at most n - mines tiles are revealed |
| BoardState.RightClick | js/PlayingField.js:375-391 | a right click never changes content or revealed status; it flags only a hidden unflagged tile while a flag is left, taking one; unflagging returns one; otherwise the counter is unchanged |
| BoardState.RevealOne | js/PlayingField.js:283-290 | a reveal marks the tile clicked, keeps content and flag, and returns one flag exactly when the tile was flagged |
| BoardState.FlagConsistent | js/PlayingField.js:372-392 | setting or clearing a flag keeps the board consistent |
| BoardState.RightClickKeepsFlagsNonNegative | js/PlayingField.js:375-383 | a flag is only taken while one is left, so the counter never goes negative |
| BoardState.RightClickTwiceRestores | js/PlayingField.js:375-391 | flagging and unflagging a hidden tile restores the tile and the counter |
| BoardState.FlagReturnedTwice | js/PlayingField.js:286-290 | flag, reveal, right click returns one flag more than was taken |
| BoardState.SetColor | js/PlayingField.js:267-276 | a class only for counts of 1 and above, the shared class from 5 on |
| BoardState.SmallCountsDistinctColors | js/PlayingField.js:267-276 | counts 1 to 4 get four different classes, none the shared one |
| Field.PlayingField.constructor | js/PlayingField.js:5-31 | clamped size, clamped mine count placed by the draws, counters at 0, one timer, every tile hidden and unflagged, no final time yet, a consistent board in `Setup` |
| Field.PlayingField.BuildBoard | js/PlayingField.js:26-29 | the shared set-up: clamped size, mines as `Place` gives them, all tiles hidden and unflagged, laid out once every mine is placed |
| Field.PlayingField.CreateTileRows | js/PlayingField.js:36-57 | each dimension clamped and the tile count equal to height times width |
| Field.PlayingField.CreateTileMap | js/PlayingField.js:80-87 | tiles 1..n exist, each with content null, hidden and unflagged |
| Field.PlayingField.CreateMimes | js/PlayingField.js:93-113 | mine count clamped, the mines are `Place` of the draws, all lie below n and only they read "M" |
| Field.PlayingField.CheckIfMimeByTileNum | js/PlayingField.js:119-122 | true exactly for a mine |
| Field.PlayingField.CheckIfClickedByTileNum | js/PlayingField.js:128-131 | true exactly for a revealed tile |
| Field.PlayingField.CountMimeNeighbors | js/PlayingField.js:139-172 | the eight guarded tests count the mines `MimeNeighbours` counts |
| Field.PlayingField.AddIfMime | js/PlayingField.js:142-144 | one guarded test adds one exactly when its guard passes on a mine |
| Field.PlayingField.CreateMimeNeighbors | js/PlayingField.js:136-176 | every tile shows "M" or its count of neighbouring mines |
| Field.PlayingField.GameOver | js/PlayingField.js:181-196 | the game is lost and the timer stopped |
| Field.PlayingField.CheckGameWon | js/PlayingField.js:201-205 | won exactly when the counter equals n - mimes, otherwise nothing changes |
| Field.PlayingField.GameWon | js/PlayingField.js:211-227 | the game is won, the timer stopped and the final time shown as `m:ss` |
| Field.PlayingField.RevealTile | js/PlayingField.js:282-330 | keeps the field consistent; reveals a region rooted at the tile and closed under flood steps, only the tile itself unless it is zero; counts every revealed tile and returns each flag; lost on a mine, won when the counter reaches n - mimes |
| Field.PlayingField.MarkRevealed | js/PlayingField.js:283-290 | the tile is revealed, counted once, and its flag returned |
| Field.PlayingField.RevealZeroNeighbours | js/PlayingField.js:299-329 | after the four neighbour tests the region is closed at the zero tile |
| Field.PlayingField.RevealIfHidden | js/PlayingField.js:305-310 | one neighbour test: a hidden neighbour is flooded, a revealed one is skipped |
| Field.PlayingField.HandleTileClick | js/PlayingField.js:359-366 | while the game runs a hidden tile is revealed as `RevealTile` states; anything else changes nothing |
| Field.PlayingField.HandleRightClick | js/PlayingField.js:372-392 | while the game runs the tile and the flag counter change as `RightClick` says; otherwise nothing changes |
| Field.PlayingField.RefreshTimeDisplay | js/PlayingField.js:343-353 | one more second, and the minutes and the two-digit seconds texts |
| Field.PlayingField.NewGame | js/PlayingField.js:232-261 | counters reset, one more timer, every tile hidden and unflagged, the final time kept, a fresh consistent board, `Active` exactly when all mines were placed |
| TileObjects.Tile.constructor | js/Tile.js:2-8 | content null, not clicked, not flagged unless given |
| TileObjects.Tile.RevealTile | js/Tile.js:15-63 | same as the playing field's reveal, on tile objects: a rooted, closed region, counted, flags returned, lost on a mine |
| TileObjects.Tile.MarkRevealed | js/Tile.js:16-23 | this tile is clicked, the counter grows by one and a flag is returned; the tile keeps its flag |
| TileObjects.Tile.RevealZeroNeighbours | js/Tile.js:32-61 | after the four tests the region is closed at the zero tile |
| TileObjects.Tile.RevealIfHidden | js/Tile.js:38-43 | one neighbour test: a hidden neighbour reveals itself, a revealed one is skipped |
| TileObjects.TileField.GameOver | js/Tile.js:25-26 | the parent's game is lost |
| TileObjects.TileField.CheckGameWon | js/Tile.js:27-28 | the parent's game is won exactly when its counter reaches n - mimes |
| TimerModel.Decimal | js/Timer.js:14 | the decimal text is non-empty digits, one digit exactly below 10 |
| TimerModel.DecimalRoundTrip | js/Timer.js:14 | reading the decimal text back gives the number |
| TimerModel.SecondsText | js/Timer.js:16 | the seconds text is always two digits |
| TimerModel.LeadingZero | js/Timer.js:16 | the leading "0" appears exactly below 10 seconds |
| TimerModel.SecondsRoundTrip | js/Timer.js:15-16 | reading the seconds text back gives the seconds |
| TimerModel.ColonAfterDigits | js/Timer.js:30 | the first ':' of the final time follows the minutes |
| TimerModel.FormatTime | js/Timer.js:25-31 | the final time is digits, a ':' and two digits (that it reads back as the elapsed time is `FormatTimeRoundTrip`) |
| TimerModel.FormatTimeRoundTrip | js/Timer.js:25-31 | the `m:ss` text reads back as the elapsed seconds: minutes * 60 + seconds |
| TimerModel.DisplayTexts | js/Timer.js:14-16 | the minutes and seconds texts, reading back as the elapsed time with seconds in two digits |
| TimerModel.Timer.constructor | js/Timer.js:2-7 | the counter starts at 0 |
| TimerModel.Timer.RefreshTimeDisplay | js/Timer.js:12-20 | one more second, and the two display texts |
| TimerModel.Timer.ProvideFinalTime | js/Timer.js:25-31 | `m:ss` of the elapsed time, which reads back as that time; the counter is unchanged |
| Prototype.CountTrueSet | js/index.js:58-59 | turning a tile into a mine adds exactly one to the count |
| Prototype.Target | js/index.js:49-50 | the target is the smaller of the request and the number of tiles |
| Prototype.Scatter | js/index.js:52-61 | the prototype's loop on the flags: same length, never fewer than the target counted down, and no mine removed (the count and origin of new mines are `ScatterProperties`) |
| Prototype.ScatterProperties | js/index.js:52-61 | the loop never removes a mine, only mines drawn tiles, and adds exactly as many mines as it counts down |
| Prototype.ScatterCompletes | js/index.js:52-61 | once every unmined tile is among the draws, any target up to their number is met, including a full board |
| Prototype.Page.CreateTileRows | js/index.js:8-23 | rows clamped to 4..16, tiles per row to 8..30, and that many fresh tiles appended |
| Prototype.Page.CreateTiles | js/index.js:30-38 | a row of fresh tiles, none a mine |
| Prototype.Page.CreateMimes | js/index.js:45-62 | the flags become what `Scatter` gives for the capped target, complete exactly when the target was met |
| Prototype.Page.Load | js/index.js:64-65 | 40 by 40 becomes 16 by 30, and once placement completes exactly 99 drawn tiles are mines |

## Left out

- Rendering is not modelled: element creation, `innerHTML`, CSS classes, `refreshFlagDisplay`, the overlay and the new-game button images. The model keeps the values those displays show.
- Audio playback is not modelled.
- `handleMouseDown` and `handleMouseUp` are not modelled. They only change the new-game button's image.
- `preventDefault` on right clicks is not modelled.
- `Math.random()` is replaced by a sequence of draws passed in as an argument.
- The source's placement loops run until the target is met. The model stops when the draws run out and reports whether the target was met (`complete`). An incomplete placement leaves the field in `Setup` without listeners, standing for the loop that has not returned.
- `setInterval` and `clearInterval` are not modelled as scheduling. A tick is a call to `RefreshTimeDisplay`, and `intervals` counts the timers started but not stopped. `newGame` starts a timer without stopping the previous one, so the count can exceed one.
- Field.PlayingField.RevealTile: states which tiles are revealed (a region rooted at the tile and closed under flood steps) and how the counters change, but not the exact depth-first order of the revealed tiles.
- Field.PlayingField.RevealZeroNeighbours: takes the four neighbour blocks, which the source writes out one after another, as a loop over the directions left, right, up, down. Each iteration uses the same edge test as its block.
- TileObjects.Tile.RevealZeroNeighbours: uses the same loop over the four directions as the playing field's version.
- TileObjects.TileField.GameOver: models only the game state of the parent's `gameOver`; the listeners, timer and final time are modelled on `Field.PlayingField`.
- TileObjects.TileField.CheckGameWon: models only the game state of the parent's `gameWon`, for the same reason.
- A `Tile`'s `avatar` (its page element) is not modelled.
- TileObjects.TileField: the tile-object reveal assumes a parent whose `tiles` map numbers to `Tile` objects and whose `setColor` and `refreshFlagDisplay` return normally. The `PlayingField` class of the same repository is not such a parent: its map holds page elements and its `setColor` reads `dataset.content`, which a `Tile` lacks. The model does not capture that mismatch.
- Field.PlayingField.CreateMimes: places the mines on a copy of the tile map, which becomes the field's map at the end. The entries are values, so no caller can observe the difference.
- The prototype assigns to `mimesLeft` although it declares `mimesleft`. In a non-strict script this creates a global variable. The model uses a local, which behaves the same for this loop.
- `parseInt(timeElapsed / 60, 10)` is modelled as integer division. The elapsed time is never negative, so the two agree.
