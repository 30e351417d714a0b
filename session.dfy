/** The state of the play page between events: the board, the two flags, the score refs,
    the stored best score, the tile counter and the pointer origins, and the handlers that
    change them (`Play`, `resetGame`, `moveTiles`, the mouse, touch and key handlers). */
module Session {
  import opened Tiles
  import opened Cells
  import opened GameOver
  import opened Slide
  import opened Settle
  import opened Move
  import opened Input

  /** A pointer position in pixels. */
  datatype Point = Point(x: int, y: int)

  /** The cell with index `k` in the row-major list of the fifteen cells left once the
      cell with index `removed` is taken out. */
  function SpliceIndex(removed: int, k: int): int {
    if k < removed then k else k + 1
  }

  /** The two cells of a new game for the picks `pick1` (of sixteen cells) and `pick2` (of
      the fifteen left). */
  function InitialCells(pick1: int, pick2: int): (Cell, Cell)
    requires 0 <= pick1 < CellCount && 0 <= pick2 < CellCount - 1
  {
    (CellAt(pick1), CellAt(SpliceIndex(pick1, pick2)))
  }

  /** A new game always starts with two distinct cells of the grid, and every ordered pair
      of distinct cells can be the start of a game. */
  lemma InitialCellsAreAllPairs(pick1: int, pick2: int, a: Cell, b: Cell)
    requires 0 <= pick1 < CellCount && 0 <= pick2 < CellCount - 1
    ensures var (c1, c2) := InitialCells(pick1, pick2); OnGrid(c1) && OnGrid(c2) && c1 != c2
    ensures OnGrid(a) && OnGrid(b) && a != b ==>
      exists p1, p2 :: 0 <= p1 < CellCount && 0 <= p2 < CellCount - 1 && InitialCells(p1, p2) == (a, b)
  {
    if OnGrid(a) && OnGrid(b) && a != b {
      var p1 := RowMajor(a);
      var k := RowMajor(b);
      var p2 := if k < p1 then k else k - 1;
      assert CellAt(p1) == a;
      assert CellAt(k) == b;
      assert InitialCells(p1, p2) == (a, b);
    }
  }

  /** The two `splice` calls of a new game on the list of the sixteen empty cells. */
  method PickInitialCells(pick1: int, pick2: int) returns (first: Cell, second: Cell)
    requires 0 <= pick1 < CellCount && 0 <= pick2 < CellCount - 1
    ensures (first, second) == InitialCells(pick1, pick2)
  {
    var empties := GetEmptyCells([]);
    EmptyBoard();
    first := empties[pick1];
    empties := empties[..pick1] + empties[pick1 + 1..];
    second := empties[pick2];
  }

  class Game {
    /** The board (`tiles` state). */
    var tiles: seq<Tile>
    /** A move is between its slide and its settle phase (`moving` state). */
    var moving: bool
    var gameOver: bool
    /** `scoreRef` and `bestScoreRef`. */
    var score: int
    var best: int
    /** The `bestScore` entry of the browser's storage. */
    var store: Option<int>
    /** The module-level `tileId` counter. */
    var nextId: nat
    /** `dragStartRef` and `touchStartRef`. */
    var dragStart: Option<Point>
    var touchStart: Option<Point>
    /** What the slide phase hands to the pending settle phase (`mergedMap`, `hasMoved`). */
    var pendingMerged: set<Cell>
    var pendingHasMoved: bool
    /** The board and direction of the move under way. */
    ghost var before: seq<Tile>
    ghost var dir: Direction

    /** Between moves the board is good; during a move the board is the slide of the
        board the move started from; a finished game is not moving and has no move left. */
    ghost predicate Valid()
      reads this
    {
      && (gameOver ==> !moving && IsGameOver(tiles))
      && (!moving ==> GoodBoard(tiles, nextId))
      && (moving ==>
            && GoodBoard(before, nextId)
            && SlideState(tiles, pendingMerged, pendingHasMoved) == SlideSpec(before, dir))
    }

    /** The page's mount: the best score is read back from storage when an entry exists
        (otherwise it is 0), and the board gets two new 2s on the cells picked. */
    constructor(saved: Option<int>, firstId: nat, pick1: int, pick2: int)
      requires 0 <= pick1 < CellCount && 0 <= pick2 < CellCount - 1
      ensures Valid()
      ensures var (c1, c2) := InitialCells(pick1, pick2);
        tiles == [CreateTile(firstId, c1, 2), CreateTile(firstId + 1, c2, 2)]
      ensures nextId == firstId + 2
      ensures best == (if saved.Some? then saved.value else 0) && store == saved
      ensures score == 0 && !moving && !gameOver
      ensures dragStart.None? && touchStart.None?
    {
      var first, second := PickInitialCells(pick1, pick2);
      InitialCellsAreAllPairs(pick1, pick2, first, second);
      tiles := [CreateTile(firstId, first, 2), CreateTile(firstId + 1, second, 2)];
      nextId := firstId + 2;
      best := if saved.Some? then saved.value else 0;
      store := saved;
      score := 0;
      moving := false;
      gameOver := false;
      dragStart := None;
      touchStart := None;
      pendingMerged := {};
      pendingHasMoved := false;
      assert PowerOfTwo(1);
    }

    /** `resetGame`: two new 2s on the cells picked, the score back to 0 and the game no
        longer over; the best score and its stored copy are kept. */
    method Reset(pick1: int, pick2: int)
      requires Valid() && !moving
      requires 0 <= pick1 < CellCount && 0 <= pick2 < CellCount - 1
      modifies this
      ensures Valid()
      ensures var (c1, c2) := InitialCells(pick1, pick2);
        tiles == [CreateTile(old(nextId), c1, 2), CreateTile(old(nextId) + 1, c2, 2)]
      ensures nextId == old(nextId) + 2
      ensures score == 0 && !gameOver && !moving
      ensures best == old(best) && store == old(store)
      ensures dragStart == old(dragStart) && touchStart == old(touchStart)
      ensures pendingMerged == old(pendingMerged) && pendingHasMoved == old(pendingHasMoved)
    {
      var first, second := PickInitialCells(pick1, pick2);
      InitialCellsAreAllPairs(pick1, pick2, first, second);
      tiles := [CreateTile(nextId, first, 2), CreateTile(nextId + 1, second, 2)];
      nextId := nextId + 2;
      score := 0;
      gameOver := false;
      assert PowerOfTwo(1);
    }

    /** The slide phase of `moveTiles`: the board becomes its slide in direction `d`, and
        the merge marks and the moved flag wait for the settle phase. */
    method MoveTiles(d: Direction)
      requires Valid() && !moving && !gameOver
      modifies this
      ensures Valid() && moving
      ensures before == old(tiles) && dir == d
      ensures SlideState(tiles, pendingMerged, pendingHasMoved) == SlideSpec(old(tiles), d)
      ensures gameOver == old(gameOver) && nextId == old(nextId)
      ensures score == old(score) && best == old(best) && store == old(store)
      ensures dragStart == old(dragStart) && touchStart == old(touchStart)
    {
      assert GoodBoard(tiles, nextId);
      before := tiles;
      dir := d;
      var moved, merged, hasMoved := SlideTiles(tiles, d);
      tiles := moved;
      pendingMerged := merged;
      pendingHasMoved := hasMoved;
      moving := true;
    }

    /** The settle phase of `moveTiles` (the timeout callback): the `forEach` collapses the
        merges and updates the scores and the stored best score, a new 2 is added when
        something moved, the move ends, and the game is over when `isGameOver` says so. */
    method Settle(pick: nat)
      requires Valid() && moving
      modifies this
      ensures Valid() && !moving
      ensures var r := MoveSpec(old(before), old(dir), old(nextId), old(score), old(best), old(store), pick);
        && tiles == r.afterMerge && nextId == r.nextId
        && score == r.score && best == r.best && store == r.store
      ensures gameOver == IsGameOver(tiles)
      ensures dragStart == old(dragStart) && touchStart == old(touchStart)
    {
      assert SlideSpec(before, dir) == SlideState(tiles, pendingMerged, pendingHasMoved);
      ghost var r := MoveSpec(before, dir, nextId, score, best, store, pick);
      MoveKeepsGood(before, dir, nextId, score, best, store, pick);
      ghost var c := Collapse(tiles, pendingMerged, nextId, score, best, store);
      assert r == Spawn(c, pendingHasMoved, pick);
      var afterMerge := CollapseMerges(tiles, pendingMerged);
      var newTiles := SpawnTile(afterMerge, pendingHasMoved, pick, c);
      assert newTiles == r.afterMerge && nextId == r.nextId;
      tiles := newTiles;
      moving := false;
      // `gameOver` is false during a move, so setting it when `isGameOver` holds is
      // assigning the test's result.
      gameOver := IsGameOver(newTiles);
    }

    /** The new 2 of the settle phase, on the empty cell picked, when something moved and
        some cell is empty. */
    method SpawnTile(afterMerge: seq<Tile>, hasMoved: bool, pick: nat, ghost st: SettleState)
      returns (newTiles: seq<Tile>)
      requires st.afterMerge == afterMerge && st.nextId == nextId
      modifies this
      ensures newTiles == Spawn(st, hasMoved, pick).afterMerge && nextId == Spawn(st, hasMoved, pick).nextId
      ensures tiles == old(tiles) && moving == old(moving) && gameOver == old(gameOver)
      ensures score == old(score) && best == old(best) && store == old(store)
      ensures dragStart == old(dragStart) && touchStart == old(touchStart)
      ensures pendingMerged == old(pendingMerged) && pendingHasMoved == old(pendingHasMoved)
      ensures before == old(before) && dir == old(dir)
    {
      newTiles := afterMerge;
      if hasMoved {
        var empties := GetEmptyCells(newTiles);
        if |empties| > 0 {
          var rand := empties[pick % |empties|];
          newTiles := newTiles + [CreateTile(nextId, rand, 2)];
          nextId := nextId + 1;
        }
      }
    }

    /** The `forEach` of the settle phase over the slid board `moved`: the first merging
        tile on each cell is replaced by its doubled tile, which adds its value to the score
        and, when the score beats the best score, raises and stores the best score; the
        partners of merges are dropped and the other tiles kept. */
    method CollapseMerges(moved: seq<Tile>, merged: set<Cell>) returns (afterMerge: seq<Tile>)
      modifies this
      ensures var r := Collapse(moved, merged, old(nextId), old(score), old(best), old(store));
        && afterMerge == r.afterMerge && nextId == r.nextId
        && score == r.score && best == r.best && store == r.store
      ensures tiles == old(tiles) && moving == old(moving) && gameOver == old(gameOver)
      ensures dragStart == old(dragStart) && touchStart == old(touchStart)
      ensures pendingMerged == old(pendingMerged) && pendingHasMoved == old(pendingHasMoved)
      ensures before == old(before) && dir == old(dir)
    {
      // The loop works on copies of the counter, the score refs and the stored best
      // score; nothing reads them while it runs, so writing them back once at the end
      // leaves the same state as the page's writes in every iteration.
      var id, sc, bs, saved := nextId, score, best, store;
      ghost var init := SettleState([], {}, id, sc, bs, saved);
      afterMerge := [];
      var mergedValueMap: map<Cell, int> := map[];
      for i := 0 to |moved|
        invariant SettleState(afterMerge, mergedValueMap.Keys, id, sc, bs, saved) ==
          SettleFold(init, moved[..i], merged)
      {
        ghost var st := SettleFold(init, moved[..i], merged);
        assert moved[..i + 1][..i] == moved[..i];
        assert SettleFold(init, moved[..i + 1], merged) == SettleTile(st, moved[i], merged);
        var tile := moved[i];
        var key := tile.Pos();
        if tile.merging {
          if key !in mergedValueMap {
            mergedValueMap := mergedValueMap[key := tile.value * 2];
            afterMerge := afterMerge + [CreateTile(id, key, tile.value * 2).(mergedResult := true)];
            id := id + 1;
            var newScore := sc + tile.value * 2;
            sc := newScore;
            if newScore > bs {
              bs := newScore;
              saved := Some(newScore);
            }
          }
        } else {
          if key !in merged {
            afterMerge := afterMerge + [tile];
          }
        }
      }
      nextId, score, best, store := id, sc, bs, saved;
      assert moved[..|moved|] == moved;
    }

    /** `handleMouseDown`: the drag origin is recorded unless the game is over. */
    method MouseDown(p: Point)
      requires Valid()
      modifies this
      ensures Valid()
      ensures dragStart == if old(gameOver) then old(dragStart) else Some(p)
      ensures tiles == old(tiles) && moving == old(moving) && gameOver == old(gameOver)
      ensures touchStart == old(touchStart)
      ensures score == old(score) && best == old(best) && store == old(store) && nextId == old(nextId)
      ensures pendingMerged == old(pendingMerged) && pendingHasMoved == old(pendingHasMoved)
      ensures before == old(before) && dir == old(dir)
    {
      if gameOver {
        return;
      }
      dragStart := Some(p);
    }

    /** `handleMouseUp`: a long enough drag, when no move is under way and the game is not
        over, starts the move in its direction and forgets the origin; a drag too short
        keeps its origin. */
    method MouseUp(p: Point) returns (started: Option<Direction>)
      requires Valid()
      modifies this
      ensures Valid()
      ensures started == (if old(moving) || old(dragStart).None? || old(gameOver) then None
                          else GestureDirection(p.x - old(dragStart).value.x, p.y - old(dragStart).value.y))
      ensures started.Some? ==> moving && before == old(tiles) && dir == started.value && dragStart.None?
      ensures started.None? ==> tiles == old(tiles) && moving == old(moving) && dragStart == old(dragStart)
      ensures touchStart == old(touchStart) && gameOver == old(gameOver)
      ensures score == old(score) && best == old(best) && store == old(store) && nextId == old(nextId)
      ensures started.None? ==> pendingMerged == old(pendingMerged) && pendingHasMoved == old(pendingHasMoved)
      ensures started.None? ==> before == old(before) && dir == old(dir)
    {
      started := None;
      if moving || dragStart.None? || gameOver {
        return;
      }
      var dx := p.x - dragStart.value.x;
      var dy := p.y - dragStart.value.y;
      var direction := GestureDirection(dx, dy);
      if direction.None? {
        return;
      }
      MoveTiles(direction.value);
      dragStart := None;
      started := direction;
    }

    /** `handleTouchStart`: the touch origin is recorded unless the game is over. */
    method TouchStart(p: Point)
      requires Valid()
      modifies this
      ensures Valid()
      ensures touchStart == if old(gameOver) then old(touchStart) else Some(p)
      ensures tiles == old(tiles) && moving == old(moving) && gameOver == old(gameOver)
      ensures dragStart == old(dragStart)
      ensures score == old(score) && best == old(best) && store == old(store) && nextId == old(nextId)
      ensures pendingMerged == old(pendingMerged) && pendingHasMoved == old(pendingHasMoved)
      ensures before == old(before) && dir == old(dir)
    {
      if gameOver {
        return;
      }
      touchStart := Some(p);
    }

    /** `handleTouchEnd`: when no move is under way, an origin exists and the game is not
        over, the swipe is handled and the origin is forgotten, whether or not the swipe
        was long enough. */
    method TouchEnd(p: Point) returns (started: Option<Direction>)
      requires Valid()
      modifies this
      ensures Valid()
      ensures started == (if old(moving) || old(touchStart).None? || old(gameOver) then None
                          else GestureDirection(p.x - old(touchStart).value.x, p.y - old(touchStart).value.y))
      ensures touchStart == (if old(moving) || old(touchStart).None? || old(gameOver) then old(touchStart) else None)
      ensures started.Some? ==> moving && before == old(tiles) && dir == started.value
      ensures started.None? ==> tiles == old(tiles) && moving == old(moving)
      ensures dragStart == old(dragStart) && gameOver == old(gameOver)
      ensures score == old(score) && best == old(best) && store == old(store) && nextId == old(nextId)
      ensures started.None? ==> pendingMerged == old(pendingMerged) && pendingHasMoved == old(pendingHasMoved)
      ensures started.None? ==> before == old(before) && dir == old(dir)
    {
      started := None;
      if moving || touchStart.None? || gameOver {
        return;
      }
      var dx := p.x - touchStart.value.x;
      var dy := p.y - touchStart.value.y;
      started := Swipe(dx, dy);
      touchStart := None;
    }

    /** `handleSwipe`: a long enough swipe starts the move in its direction unless the
        game is over. Its only caller has already checked that no move is under way. */
    method Swipe(dx: int, dy: int) returns (started: Option<Direction>)
      requires Valid() && !moving
      modifies this
      ensures Valid()
      ensures started == (if old(gameOver) then None else GestureDirection(dx, dy))
      ensures started.Some? ==> moving && before == old(tiles) && dir == started.value
      ensures started.None? ==> tiles == old(tiles) && moving == old(moving)
      ensures dragStart == old(dragStart) && touchStart == old(touchStart) && gameOver == old(gameOver)
      ensures score == old(score) && best == old(best) && store == old(store) && nextId == old(nextId)
      ensures started.None? ==> pendingMerged == old(pendingMerged) && pendingHasMoved == old(pendingHasMoved)
      ensures started.None? ==> before == old(before) && dir == old(dir)
    {
      started := None;
      if gameOver {
        return;
      }
      var direction := GestureDirection(dx, dy);
      if direction.None? {
        return;
      }
      MoveTiles(direction.value);
      started := direction;
    }

    /** `handleKeyDown`: an arrow key, when no move is under way and the game is not over,
        starts the move in its direction; any other key, or any key at another time, does
        nothing. */
    method KeyDown(key: string) returns (started: Option<Direction>)
      requires Valid()
      modifies this
      ensures Valid()
      ensures started == (if old(moving) || old(gameOver) then None else KeyDirection(key))
      ensures started.Some? ==> moving && before == old(tiles) && dir == started.value
      ensures started.None? ==> tiles == old(tiles) && moving == old(moving)
      ensures dragStart == old(dragStart) && touchStart == old(touchStart) && gameOver == old(gameOver)
      ensures score == old(score) && best == old(best) && store == old(store) && nextId == old(nextId)
      ensures started.None? ==> pendingMerged == old(pendingMerged) && pendingHasMoved == old(pendingHasMoved)
      ensures started.None? ==> before == old(before) && dir == old(dir)
    {
      started := None;
      if moving || gameOver {
        return;
      }
      var direction := KeyDirection(key);
      if direction.Some? {
        MoveTiles(direction.value);
        started := direction;
      }
    }
  }
}
