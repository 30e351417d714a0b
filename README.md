# 2048 tile engine of the Play page

This project models the tile engine of the 2048 page `Play`. The board is a list of
numbered tiles on a 4×4 grid. A move runs in two phases:

- In the **slide** phase, tiles are visited in the traversal order of the direction. Each
  tile walks toward the edge and may enter a cell holding a tile of equal value. A cell
  can receive at most one merge per move.
- In the **settle** phase, every merged cell gets one tile of double value. The score and
  the best score grow by the doubled values. A new 2 appears on a random empty cell when
  some tile changed cell.

The model also covers the end-of-game test, the empty-cell list and the traversal order.
It covers the start of a game and the reset, the tile-id counter, the score refs, the
stored best score, and the mouse, touch and keyboard handlers that turn a gesture into a
move.

Modules, in dependency order:

- `Tiles`: cells, directions, tiles, the `find` lookup, and the board predicates. A board
  is *settled* when its tiles are on the grid, at most one per cell, and none is merging.
  A board has *fresh ids* when its ids are distinct and below the counter.
- `Cells`: `getEmptyCells`, as a loop proved against the specification function
  `EmptyCells`.
- `Traversal`: `getTraversalOrder`, as a loop proved against `TraversalOrder`.
- `GameOver`: `isGameOver` and its characterisation.
- `Slide`: the slide phase.
  - The method `SlideTiles`, with the `while (true)` walk as `WalkTile`, is proved equal to
    the fold `SlideSpec`.
  - Lemmas give the properties of the fold.
- `Settle`: the settle phase.
  - The fold `Collapse` is the `forEach`.
  - `Spawn` adds the new tile.
  - Lemmas cover the board, the counts and the scores.
- `Move`: a whole move. It covers what a move keeps, the score, the case where nothing
  moves, and the game-over case.
- `Input`: the direction of a drag, a swipe or a key.
- `Session`: the page state as the class `Game`.
  - Its fields are the board, `moving`, `gameOver`, the score refs, the stored best
    score, the counter, the pointer origins, and what the slide hands to the pending
    settle phase.
  - Its methods are the mount, `resetGame`, the two phases of `moveTiles` and the
    handlers.
  - Its invariant `Valid()` says three things. A finished game has no move left. Between
    moves the board is settled, with fresh ids and power-of-two values. During a move
    the board is the slide of the board the move started from.

## Model

| member | source | states |
|---|---|---|
| Tiles.CreateIsFresh | src/pages/Play.jsx:30-38 | The id `tileId++` hands to a created tile differs from every id on the board, and after the step the counter is above every id on the board, the new tile included. |
| Tiles.FindIndex | src/pages/Play.jsx:200 | Returns the index of the first tile on the cell, with no tile on that cell before it. Returns none exactly when no tile is on the cell. |
| Cells.GetEmptyCells | src/pages/Play.jsx:40-51 | The nested row/column loop returns exactly `EmptyCells(tiles)`. |
| Cells.EmptyCellsSpec | src/pages/Play.jsx:40-51 | A cell is listed iff it is on the grid and no tile occupies it. The list is strictly row-major, so it has no repeats. Its length is 16 minus the number of distinct occupied cells. |
| Cells.EmptyCount | src/pages/Play.jsx:40-51 | On a board whose tiles sit on distinct grid cells, there are 16 − \|tiles\| empty cells, and at most 16 tiles. |
| Cells.EmptyBoard | src/pages/Play.jsx:66 | On the empty board, the empty cells are all sixteen cells in row-major order. |
| Traversal.GetTraversalOrder | src/pages/Play.jsx:294-316 | The nested loops over the possibly reversed ranges build exactly `TraversalOrder(d)`. |
| Traversal.TraversalIsPermutation | src/pages/Play.jsx:294-316 | The order has 16 cells, all on the grid. Each grid cell appears exactly once, at the position given by its rank. |
| Traversal.TraversalIsRowMajor | src/pages/Play.jsx:296-314 | The order is row-major. Rows descend only for "down" and columns descend only for "right"; otherwise both ascend. |
| Traversal.AheadVisitedFirst | src/pages/Play.jsx:294-316 | A cell further along the direction of the move is visited before the cells behind it. |
| GameOver.IsGameOver | src/pages/Play.jsx:10-28 | `isGameOver`: no empty cell, and the row-major scan finds no cell whose right or lower neighbour has its value. Its meaning is proved in `GameOverScan` and `GameOverCharacterization`. |
| GameOver.ClearFromAll | src/pages/Play.jsx:13-26 | The scan with early return from cell k on succeeds iff every cell from k on is clear. |
| GameOver.GameOverScan | src/pages/Play.jsx:10-28 | `isGameOver` holds iff no cell is empty and every cell is clear. A cell is clear when its right and lower neighbours, as `find` sees them, do not have its value. |
| GameOver.GameOverCharacterization | src/pages/Play.jsx:10-28 | On a settled board, `isGameOver` holds iff all 16 cells hold a tile and no two tiles on cells sharing a side have equal values. Both directions are proved. |
| Slide.SlideTiles | src/pages/Play.jsx:187-248 | The traversal loop, with its `find`, walk and in-place update of the copied board, returns exactly `SlideSpec(tiles, d)`. |
| Slide.Walk | src/pages/Play.jsx:205-236 | The walk of one tile from its cell: step while the next cell is on the grid and empty, enter an unmerged cell holding an equal tile and mark it, stop otherwise. Its meaning is proved in `WalkStops`. |
| Slide.WalkTile | src/pages/Play.jsx:203-236 | The `while (true)` walk returns exactly the end cell and merge marks of `Walk`. |
| Slide.WalkStops | src/pages/Play.jsx:205-236 | Facts about the walk, listed below this table. |
| Slide.SlideMovesAlong | src/pages/Play.jsx:187-246 | Facts about the slide of any board, listed below this table. |
| Slide.SlideMergeRules | src/pages/Play.jsx:198-246 | Facts about the slide of a settled board, listed below this table. |
| Settle.SettleTile | src/pages/Play.jsx:253-274 | One step of the `forEach`. Its effect over the whole board is proved in `CollapseScore`, `CollapseSettled`, `CollapseCount` and `CollapseContent`. |
| Settle.Spawn | src/pages/Play.jsx:276-283 | The new 2 after a move, with the next id, on the cell `SpawnCell` picks. That it keeps a good board good is proved in `Move.MoveKeepsBoard`. |
| Settle.SpawnCell | src/pages/Play.jsx:276-283 | There is a new tile iff something moved and an empty cell exists. The cell picked is on the grid and free. |
| Settle.CollapseScore | src/pages/Play.jsx:262-267 | Score and best-score facts of the `forEach`, listed below this table. |
| Settle.CollapseSettled | src/pages/Play.jsx:251-274 | Facts about the tiles the `forEach` builds, listed below this table. |
| Settle.CollapseCount | src/pages/Play.jsx:251-274 | The `forEach` drops exactly one tile per merged cell (\|afterMerge\| = \|moved\| − \|merged\|). The counter advances once per merged cell. |
| Settle.CollapseContent | src/pages/Play.jsx:251-274 | Every slid tile that is not merging and whose cell received no merge is kept unchanged. Every merged cell holds a merge-result tile whose value is the sum of the merging tile and its equal partner on that cell. |
| Move.MoveKeepsBoard | src/pages/Play.jsx:185-291 | What a whole move keeps and changes, listed below this table. |
| Move.MoveScore | src/pages/Play.jsx:250-274 | Score and best-score facts of a whole move, listed below this table. |
| Move.NoMoveNoChange | src/pages/Play.jsx:238-245 | When no tile changes cell, the move merges nothing and adds no tile. The score, the best score, the stored best score and the counter stay as they were. The board only loses its `new` marks. |
| Move.GameOverStuck | src/pages/Play.jsx:10-28 | On a settled board where `isGameOver` holds, no direction moves any tile or merges anything. |
| Input.GestureDirection | src/pages/Play.jsx:116-126 | The direction of a drag or swipe from its offsets. Its meaning is proved in `GestureIsDominant` and `GestureReversed`. |
| Input.GestureIsDominant | src/pages/Play.jsx:116-126 | A drag gives no direction iff both \|dx\| and \|dy\| are below 30. Otherwise it gives the direction the gesture goes furthest in. A horizontal direction must win outright, so ties go to the vertical axis. |
| Input.GestureReversed | src/pages/Play.jsx:146-154 | Negating both offsets gives the opposite direction, or no direction again. |
| Input.KeyDirection | src/pages/Play.jsx:161-165 | The direction of a key. Its meaning is proved in `KeysOneToOne`. |
| Input.KeysOneToOne | src/pages/Play.jsx:161-165 | The four arrow keys map one-to-one onto the four directions. Every other key gives none. |
| Session.InitialCellsAreAllPairs | src/pages/Play.jsx:66-76 | The two initial cells are distinct grid cells. Every ordered pair of distinct cells is reachable from some pair of picks. |
| Session.PickInitialCells | src/pages/Play.jsx:66-74 | The two `splice` calls on the sixteen empty cells return `InitialCells(pick1, pick2)`. |
| Session.Game.constructor | src/pages/Play.jsx:82-102 | Mount facts, listed below this table. |
| Session.Game.Reset | src/pages/Play.jsx:64-80 | Reset facts, listed below this table. |
| Session.Game.MoveTiles | src/pages/Play.jsx:185-248 | The slide phase. `moving` is set and the board becomes `SlideSpec(old tiles, d)`. The merge marks and the moved flag wait for the settle phase. Nothing else changes. `Valid()` is kept. |
| Session.Game.Settle | src/pages/Play.jsx:250-291 | The settle phase. The board, counter, score, best score and stored best score become those of `MoveSpec` from the board the move started. `moving` is cleared. `gameOver` becomes `isGameOver` of the new board. `Valid()` is kept. |
| Session.Game.CollapseMerges | src/pages/Play.jsx:251-274 | The `forEach`, which keys the doubled values by cell, leaves exactly the board, counter, score, best score and stored score of `Collapse`. |
| Session.Game.SpawnTile | src/pages/Play.jsx:276-283 | Adds exactly the tile and the counter step of `Spawn`. |
| Session.Game.MouseDown | src/pages/Play.jsx:105-108 | The drag origin is recorded unless the game is over. Nothing else changes. |
| Session.Game.MouseUp | src/pages/Play.jsx:110-130 | Mouse-up facts, listed below this table. |
| Session.Game.TouchStart | src/pages/Play.jsx:131-135 | The touch origin is recorded unless the game is over. Nothing else changes. |
| Session.Game.TouchEnd | src/pages/Play.jsx:137-144 | Touch-end facts, listed below this table. |
| Session.Game.Swipe | src/pages/Play.jsx:146-157 | Unless the game is over, the swipe starts the move in `GestureDirection(dx, dy)` when that is some direction. Otherwise nothing changes. The score, best score, stored best score and counter never change. |
| Session.Game.KeyDown | src/pages/Play.jsx:159-170 | While no move is under way and the game is not over, an arrow key starts the move in `KeyDirection(key)`. At any other time, or for any other key, nothing changes. The score, best score, stored best score and counter never change. |

Details for the rows that point here:

- **Slide.WalkStops.** A walk moves only forward along the direction. It ends on the grid
  and crosses only empty cells. It stops exactly in one of four cases:
  - at the edge;
  - before a tile of another value;
  - before a cell that already received a merge;
  - right after entering an unmerged cell holding an equal tile.

  In the last case it marks that cell, and that is the only change to the marks. A cell is
  never marked twice in one move.
- **Slide.SlideMovesAlong.** For any board, the slide keeps every tile, with the same
  id, value and order. It clears the tile's `new` flag and moves it only forward along the
  direction, within the grid. `hasMoved` holds iff some tile ends on another cell. When
  nothing moved, the board is unchanged except for the `new` flags, and no cell received a
  merge.
- **Slide.SlideMergeRules.** On a settled board:
  - the merging tiles sit exactly on the merged cells, one per cell;
  - the other tiles sit on distinct cells;
  - each merging tile shares its cell with a non-merging tile of its value;
  - all tiles stay on the grid, and only a tile that changed cell merges;
  - on a full board nothing moves without a merge.
- **Settle.CollapseScore.** The score grows by exactly the values of the merge results.
  Each merge adds twice the merged value. The best score becomes max(best, score) once
  the score has grown, and never decreases. The stored best score is rewritten exactly
  when the best score changes, and only to the new best.
- **Settle.CollapseSettled.** The tiles the `forEach` builds sit on distinct grid cells.
  None is merging. Their ids are distinct and below the counter. Their values are powers
  of two. Each is either a slid tile kept as it was, or a new merge result on a merged
  cell.
- **Move.MoveKeepsBoard.** A move maps a settled board, with fresh ids and power-of-two
  values, to another such board.
  - Tiles: the count becomes tiles − merges + (1 if some tile moved, else 0).
  - Ids: the counter advances by the same amount.
  - New tile: it is last, has value 2, is new, and lies on a cell that was empty after
    the merges.
  - Nothing moved: the board is the collapsed board.
- **Move.MoveScore.** The score grows by the values of the tiles the merges make. The
  best score becomes max(best, score) when the score grew, so it never decreases. The
  stored best score changes exactly when the best score changes.
- **Session.Game.constructor.** The best score is the stored entry when there is one and
  0 otherwise. The board is two new 2s with the next two ids, on `InitialCells(pick1,
  pick2)`. The score is 0. The game is neither moving nor over. `Valid()` holds.
- **Session.Game.Reset.** The board becomes two new 2s with the next two ids, on
  `InitialCells(pick1, pick2)`. The score becomes 0 and the game is no longer over. The
  best score, the stored best score and the pointer origins are kept. `Valid()` is kept.
- **Session.Game.MouseUp.** The handler does nothing while a move is under way, when
  there is no origin, or when the game is over. Otherwise a drag of at least 30 pixels
  starts the move in `GestureDirection(dx, dy)` and clears the origin. A shorter drag
  keeps its origin. When no move starts, nothing else changes. The score, best score,
  stored best score and counter never change.
- **Session.Game.TouchEnd.** Under the same guard, the swipe is handled and the touch
  origin is cleared, whether or not the swipe was long enough. When no move starts,
  nothing else changes. The score, best score, stored best score and counter never change.

## Left out

- Rendering, CSS, pixel layout and `getTileColor` are presentation only.
- `Home.jsx`, `App.jsx` and `theme.js` are routing and theming. They are not part of this
  model.
- React plumbing is not modelled: `useState`/`useEffect`, listener registration and
  cleanup, and the 200 ms `setTimeout`. The two phases of a move are two successive method
  calls, `MoveTiles` then `Settle`.
- The handlers read `moving` and `gameOver` from the render that registered them. The
  effect is re-registered whenever `tiles` or `moving` changes. The settle phase sets the
  board, `moving` and `gameOver` in one callback of the `setTimeout`. This model takes
  those three updates to be batched into one render, as React 18 does under `createRoot`;
  then the effect re-registers the handlers with the current `gameOver`. Without
  batching, the handlers could keep a stale `gameOver`. The model
  reads the fields directly.
- The browser storage is the field `store: Option<int>`.
  - The mount reads it back into the best score when an entry exists.
  - The settle phase writes the new best score into it.
  - String conversion and `parseInt` are not modelled: a stored entry is taken to be a
    number.
- The `forEach` of the settle phase works on local copies of the counter, the score, the
  best score and the stored score, and writes them back once at the end. Nothing reads
  them while the loop runs, so the final state is the same.
- `Math.random` is replaced by the index parameters `pick1`, `pick2` and `pick`.
  - The two initial picks are indices into the 16 and then the 15 remaining cells.
  - The spawn pick is reduced modulo the number of empty cells. `Math.floor(Math.random() *
    n)` is always below `n`.
- Pointer coordinates are whole numbers of pixels. Fractional coordinates are not
  modelled.
- `prevRow`/`prevCol` are not modelled. The page copies them onto each tile and never
  reads them.
- The tile-id counter is the field `nextId`. Its value at mount is the constructor
  parameter `firstId`, because the counter is module-level and survives remounts.
- The empty board shown before the mount effect runs is not modelled. The constructor
  produces the state after the mount effect.
- Session.Game.Reset: requires that no move is under way. The page shows its button only
  on the game-over overlay, and a finished game is never moving.
- Session.Game.Swipe: requires that no move is under way. Its only caller, the touch-end
  handler, returns first when a move is under way.
