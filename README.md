# Snow-clearing puzzle: game logic in Dafny

This project models the game logic of a small browser puzzle (`src/ts/main.ts`).
A board (a *layout*) is a rectangle of cells. Each cell is `frozen`, `empty` or `full`.
The player clicks or drags over empty cells, and each one becomes full (a present is drawn).
A layout is complete when no empty cell is left.
On the next animation frame the game then swaps in a freshly generated random layout.
Input keeps working during the short pause that follows, while the completed old board is still on screen.

The model has seven modules:

- `Layouts` (layouts.dfy) covers the `CellType` and `Layout` values and `completedLayout`.
  `completedLayout` is written as the left fold that the `reduce` performs.
- `Generator` (generator.dfy) covers `generateLayout`.
  The calls to `random(10)` become a finite list of draws in `[0, 9]`, consumed from the front.
  When the list runs out first, the result is `None`.
  The finite list also makes the retry recursion terminate.
- `Tiles` (tiles.dfy) covers `getTilePosition` and the click index `cy * width + cx`.
- `Geometry` (geometry.dfy) covers the pixel arithmetic that `render` and `doTurn` share:
  the tile side, the tiles that fit, the board offset, and the cell under the pointer.
  JavaScript numbers are modelled as exact reals.
  `Math.floor` is `real.Floor`, and `Math.round(x)` is `floor(x + 0.5)`.
  The method `TileOrigins` is the cell loop of `render`, reduced to where each square is drawn.
- `Turns` (turns.dfy) covers the cell update of `doTurn`, a `map` that builds a new layout.
- `Game` (game.dfy) is the closure state of `main` as a class.
  Its fields are `base`, `running`, `mouseDown` and the viewport size.
  Its methods are the mouse listeners, `doTurn`, `resolveState` and one step of `loop`.
  The module also holds scenario lemmas on the initial 3 by 3 board.
- `Wrappers` (wrappers.dfy) holds the `Option` type.

Behaviour of the code worth knowing:

- The column of a click is not checked. A pointer just right of the board selects the first cell of the next row, and that cell is cleared if it is empty (`Geometry.PastRightEdgeSelectsNextRow`, `Game.ClickRightOfBoardClearsNextRow`). Only an index outside `[0, width * height)` is ignored.
- Turns are taken whether or not the game is `running`. The mouse listeners never read the flag, so clicks during the pause after a win change the new layout.
- During that pause the canvas still shows the completed old board: a frame renders `base` before it awaits `resolveState`, and no frame renders again until the pause ends. Clicks are meanwhile mapped with the new layout's side and offset, onto cells the player cannot see. `Geometry.ClickOnDrawnTile` relates clicks to drawn squares only when the drawn layout is the current `base`.
- The tile side is the shorter viewport axis over the longer board axis plus two. In a 900 by 900 viewport a 3 by 3 board gets 180-pixel tiles, and a click at (450, 450) selects the centre cell, index 4 (`Game.CentreClickSelectsCentreCell`).
- Width and height are drawn from `random(10)`, so either can be 0. A board with no cells counts as complete and is always rejected, which is why the retries are not bounded by the probability alone (`Generator.ZeroSizedAttemptRetries`).

## Model

| member | source | states |
|---|---|---|
| `Layouts.AllNotEmpty` | src/ts/main.ts:44-45 | the `reduce` step by step (no ensures of its own; `Layouts.AllNotEmptyMeans` characterises it) |
| `Layouts.CompletedLayout` | src/ts/main.ts:44-45 | `completedLayout` (no ensures of its own; `Layouts.CompletedIff` characterises it) |
| `Layouts.AllNotEmptyMeans` | src/ts/main.ts:44-45 | the `reduce` with `prev && curr !== empty` returns its seed exactly when no cell is empty |
| `Layouts.CompletedIff` | src/ts/main.ts:44-45 | a layout is complete iff no cell is `empty`, iff the count of empty cells is zero |
| `Layouts.ZeroSizedIsComplete` | src/ts/main.ts:44-45 | a well-formed layout of width 0 or height 0 has no cells and is complete |
| `Layouts.IncompleteHasCells` | src/ts/main.ts:44-45 | a well-formed layout that is not complete has a positive width and height |
| `Layouts.CompletionIgnoresFrozenVsFull` | src/ts/main.ts:44-45 | two layouts with the same empty positions are complete or not together, however frozen and full are spread |
| `Generator.Candidate` | src/ts/main.ts:49-60 | one attempt takes width and height from the first two draws and one draw per cell; it has `width * height` cells; a cell is empty iff its draw is at most `probability`, else frozen, never full; the leftover draws follow; None iff the draws run out |
| `Generator.GenerateLayout` | src/ts/main.ts:47-67 | any layout returned is well formed, has width and height in `[1, 9]`, is not complete, and has no full cell |
| `Generator.GeneratedIsFirstIncomplete` | src/ts/main.ts:47-67 | the layout returned is the first attempt that is not complete: attempt `k` starts where attempt `k - 1` left off, at probability `probability + k`; every attempt before the last is complete; the last is not complete and is the result |
| `Generator.FirstIncompleteIsGenerated` | src/ts/main.ts:47-67 | conversely, whenever the draws hold such a chain (complete attempts, each retry one step higher in probability on the leftover draws, ending in an incomplete attempt), generation returns that last board; so `None` comes only from draws that run out before an attempt is accepted |
| `Generator.ChainFromAttempt` | src/ts/main.ts:62-66 | from any attempt of such a chain on, generation returns the chain's last board: a complete attempt hands over to the next one (62-63), the incomplete last one is returned (66) |
| `Generator.ExtendChain` | src/ts/main.ts:62-64 | a rejected attempt followed by a chain of attempts on its leftover draws, one step higher in probability, is a chain on all the draws ending with the same board |
| `Generator.CertainProbabilityAccepts` | src/ts/main.ts:58-66 | from probability 9 on, any attempt with non-zero width and height is accepted as drawn |
| `Generator.ZeroSizedAttemptRetries` | src/ts/main.ts:62-64 | a zero-wide or zero-high attempt is always rejected, and generation retries with `probability + 1` on the remaining draws |
| `Tiles.ClickIndex` | src/ts/main.ts:204 | `cy * width + cx` (no ensures of its own; `Tiles.TilePositionOfClick`, `Tiles.ColumnPastEdgeWraps` and `Geometry.RowMajorInRange` characterise it) |
| `Tiles.GetTilePosition` | src/ts/main.ts:90-94 | for `index >= 0` and `width > 0`, the column lies in `[0, width)`, the row is non-negative, and `row * width + column == index` |
| `Tiles.TilePositionOfClick` | src/ts/main.ts:204 | for a column in `[0, width)` and a row `>= 0`, `getTilePosition(cy * width + cx)` gives back `(cx, cy)` |
| `Tiles.TilePositionInjective` | src/ts/main.ts:90-94 | distinct cell indices are drawn at distinct tiles |
| `Tiles.ColumnPastEdgeWraps` | src/ts/main.ts:204 | column `width` of row `cy` has the same index as column 0 of row `cy + 1` |
| `Geometry.Floor` | src/ts/main.ts:203 | `Math.floor(x)` is the integer `n` with `n <= x < n + 1` |
| `Geometry.Round` | src/ts/main.ts:129-130 | `Math.round(x)` is the integer `n` with `n - 1/2 <= x < n + 1/2` |
| `Geometry.Side` | src/ts/main.ts:116-117 | the tile side is positive |
| `Geometry.SideSpansShorterAxis` | src/ts/main.ts:116-117 | the side times (longer board axis + 2) equals the shorter viewport axis |
| `Geometry.TilesFitting` | src/ts/main.ts:125 | `tilesFitting`, also computed at line 196 (no ensures of its own; `Geometry.TilesFittingBounds` characterises it) |
| `Geometry.TilesFittingBounds` | src/ts/main.ts:125 | `tilesFitting` whole tiles fit in the axis, and one more would not |
| `Geometry.OffsetTiles` | src/ts/main.ts:128-131 | the board is shifted by `k` whole tiles with `2k - 1 <= tilesFitting - dim < 2k + 1`, so it is centred to within half a tile |
| `Geometry.BoardFrame` | src/ts/main.ts:193-200 | `doTurn` and `render` compute the same positive side and the same offsets |
| `Geometry.CellCoord` | src/ts/main.ts:203 | one of `[cx, cy]` (no ensures of its own; `Geometry.CellCoordBounds`, `Geometry.SameSpan` and `Geometry.CoordOfTile` characterise it) |
| `Geometry.PointerCell` | src/ts/main.ts:198-203 | the `[cx, cy]` of a pointer (no ensures of its own; `Geometry.PointerOnSquare` and `Geometry.PointerInSquare` characterise it) |
| `Geometry.MouseIndex` | src/ts/main.ts:198-204 | `mouseIndex` (no ensures of its own; `Geometry.ClickOnDrawnTile` and `Geometry.ClickSelectsTileUnderPointer` characterise it) |
| `Geometry.TileOrigin` | src/ts/main.ts:128-138 | where `render` draws cell `index` (no ensures of its own; `Geometry.TileOrigins` computes it in the loop and `Geometry.ClickOnDrawnTile` relates it to clicks) |
| `Geometry.CellCoordBounds` | src/ts/main.ts:203 | the computed column (or row) is the tile whose pixel span holds the pointer |
| `Geometry.TileOrigins` | src/ts/main.ts:133-139 | the render loop gives every cell `index` a square at the board offset plus `getTilePosition(index) * side` |
| `Geometry.SameSpan` | src/ts/main.ts:203 | an offset lies in the pixel span of exactly one column (or row): two tiles whose spans both hold it are the same tile |
| `Geometry.CoordOfTile` | src/ts/main.ts:198-203 | a coordinate `d` pixels into tile `k` (`0 <= d < side`) maps back to `k`, for every integer `k` |
| `Geometry.PointerOnSquare` | src/ts/main.ts:198-203 | a pointer inside the square of tile `t` maps to `t` |
| `Geometry.PointerInSquare` | src/ts/main.ts:198-203 | every pointer lies inside the square of the tile it maps to |
| `Geometry.ClickOnDrawnTile` | src/ts/main.ts:128-138 | a click inside the square drawn for cell `index` gives `mouseIndex == index` |
| `Geometry.ClickSelectsTileUnderPointer` | src/ts/main.ts:193-204 | when the column and row fall on the board, `mouseIndex` names an existing cell, and the pointer lies in the square drawn for it |
| `Geometry.RowMajorInRange` | src/ts/main.ts:204 | an in-range column and row give an index of an existing cell |
| `Geometry.PastRightEdgeSelectsNextRow` | src/ts/main.ts:203-204 | a pointer one square right of row `r` gets column `width` and selects index `(r + 1) * width` |
| `Turns.ApplyTurn` | src/ts/main.ts:205-210 | a turn keeps the width, the height and the number of cells |
| `Turns.DoTurn` | src/ts/main.ts:191-212 | `doTurn`: the turn at the pointer's `mouseIndex` (no ensures of its own; `Turns.TurnIsUpdate` with `Geometry.MouseIndex` characterises it) |
| `Turns.TurnIsUpdate` | src/ts/main.ts:205-210 | a turn on an existing empty cell sets that cell to full and changes nothing else; otherwise, including for an out-of-range index, it returns the layout unchanged |
| `Turns.TurnKeepsWellFormed` | src/ts/main.ts:205-210 | a turn keeps `cells.length == width * height` |
| `Turns.TurnIdempotent` | src/ts/main.ts:207-209 | applying the same turn twice equals applying it once |
| `Turns.TurnCounts` | src/ts/main.ts:207-209 | the frozen count never changes; the empty count drops by one and the full count rises by one exactly when the turn clears a cell |
| `Turns.TurnOnCompleteIsNoOp` | src/ts/main.ts:207-209 | on a complete layout every turn returns the layout unchanged |
| `Turns.TurnCompletes` | src/ts/main.ts:207-209 | a turn completes an incomplete layout iff it clears the last empty cell |
| `Game.InitialLayout` | src/ts/main.ts:144-158 | the starting 3 by 3 board (a constant; `Game.FirstRoundWonByFiveClicks` and the constructor use it) |
| `Game.FirstRoundWonByFiveClicks` | src/ts/main.ts:144-158 | clicking indices 1, 3, 4, 5, 7 of the initial board fills the plus sign and completes the board |
| `Game.InitialFrameIn900Square` | src/ts/main.ts:116-131 | the initial board in a 900 by 900 viewport has 180-pixel tiles and a one-tile offset |
| `Game.CentreClickSelectsCentreCell` | src/ts/main.ts:193-204 | a click at (450, 450) in that viewport selects index 4 |
| `Game.ClickRightOfBoardClearsNextRow` | src/ts/main.ts:198-212 | a click at (730, 190), right of the top row, maps to column 3 of a 3-wide board and clears cell 3, the first cell of the second row |
| `Game.Game.constructor` | src/ts/main.ts:144-158 | the game starts with the 3 by 3 initial board, running, with no button held |
| `Game.Game.Turn` | src/ts/main.ts:191-213 | `doTurn` replaces `base` by the turn at the pointer's `mouseIndex` and keeps it well formed |
| `Game.Game.MouseDown` | src/ts/main.ts:221-225 | `mousedown` sets `mouseDown` and takes a turn, whether running or not |
| `Game.Game.MouseMove` | src/ts/main.ts:227-231 | `mousemove` takes a turn only while `mouseDown` holds; otherwise `base` is unchanged |
| `Game.Game.MouseUp` | src/ts/main.ts:217-219 | `mouseup` clears `mouseDown` and changes nothing else |
| `Game.Game.ResolveState` | src/ts/main.ts:159-169 | on a complete `base`: `mouseDown` cleared, `base` replaced by the generated layout (well formed, not complete), `running` false; otherwise nothing changes |
| `Game.Game.FinishWinPause` | src/ts/main.ts:170-173 | after the pauses, `running` is true again and nothing else changes |
| `Game.Game.Loop` | src/ts/main.ts:177-184 | a frame wins exactly when the game is running and the board is complete; a win installs the generated layout (fresh, incomplete) and pauses; otherwise nothing changes |

## Left out

- Image loading (`loadImage`, the `require` of the PNGs, `Promise.all`): asset I/O.
- Drawing: `drawTile`, the background loop of frozen tiles, `fillRect`, `drawImage`, `save`, `translate` and `restore`. Only the position of each cell's square is modelled (`Geometry.TileOrigins`).
- `requestAnimationFrame`, `async`/`await` and the `setTimeout` of `wait`. The 500 ms pauses and the `canvas.className` toggling between them are not modelled. `resolveState` is split at its first `await` into `ResolveState` and `FinishWinPause`, and the model allows any number of mouse events in between.
- `resize` and `window.onresize`: the viewport size is fixed when the game is built. Resizing would only change the two viewport fields.
- `addEventListener`: only the state change each listener makes is modelled.
- `Math.random`: the random numbers are a parameter, a list of draws in `[0, 9]`.
- Generator.GenerateLayout: returns `None` when the supplied draws run out before an attempt is accepted (`GeneratedIsFirstIncomplete` and `FirstIncompleteIsGenerated` together: `Some` exactly when the draws hold a chain of attempts ending in an incomplete one). The source, with unlimited randomness, never stops early.
- Game.Game.ResolveState: requires enough draws to generate a layout when the board is complete, because the model cannot produce random numbers itself.
- IEEE-754 rounding in the pixel arithmetic: numbers are exact reals.
- A viewport with zero width or height: the model requires both to be positive. In JavaScript a zero side would make the divisions produce `NaN` or `Infinity`.
- `getTilePosition` on a negative index or zero width: it is only called from the render loop, where the index is a cell index and the width is positive.
- `src/ts/assets.ts`: not part of this model. It is unrelated to the puzzle.
