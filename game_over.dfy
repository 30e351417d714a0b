/** The end-of-game test (`isGameOver`). */
module GameOver {
  import opened Tiles
  import opened Cells

  /** The tile found at `c` has value `v`. */
  predicate ValueAt(tiles: seq<Tile>, c: Cell, v: int) {
    match Find(tiles, c)
    case None => false
    case Some(t) => t.value == v
  }

  /** The tile found at `c`, if any, differs from the tile found to its right and the tile
      found below it. */
  predicate CellClear(tiles: seq<Tile>, c: Cell) {
    match Find(tiles, c)
    case None => true
    case Some(t) =>
      !ValueAt(tiles, Cell(c.row, c.col + 1), t.value) && !ValueAt(tiles, Cell(c.row + 1, c.col), t.value)
  }

  /** The scan over the cells from row-major index `k` on, stopping at the first cell
      that could still merge. */
  predicate ClearFrom(tiles: seq<Tile>, k: int)
    requires 0 <= k <= CellCount
    decreases CellCount - k
  {
    k == CellCount || (CellClear(tiles, CellAt(k)) && ClearFrom(tiles, k + 1))
  }

  /** No empty cell, and the scan finds no equal right or lower neighbour. */
  predicate IsGameOver(tiles: seq<Tile>) {
    |EmptyCells(tiles)| == 0 && ClearFrom(tiles, 0)
  }

  /** Two cells that share a side. */
  predicate Adjacent(a: Cell, b: Cell) {
    || (a.row == b.row && (b.col == a.col + 1 || a.col == b.col + 1))
    || (a.col == b.col && (b.row == a.row + 1 || a.row == b.row + 1))
  }

  /** Some two tiles on neighbouring cells carry the same value. */
  ghost predicate HasEqualNeighbours(tiles: seq<Tile>) {
    exists i, j :: 0 <= i < |tiles| && 0 <= j < |tiles| &&
      Adjacent(tiles[i].Pos(), tiles[j].Pos()) && tiles[i].value == tiles[j].value
  }

  lemma {:induction false} ClearFromAll(tiles: seq<Tile>, k: int)
    requires 0 <= k <= CellCount
    ensures ClearFrom(tiles, k) <==> forall j :: k <= j < CellCount ==> CellClear(tiles, CellAt(j))
    decreases CellCount - k
  {
    if k < CellCount {
      ClearFromAll(tiles, k + 1);
      assert ClearFrom(tiles, k) == (CellClear(tiles, CellAt(k)) && ClearFrom(tiles, k + 1));
    }
  }

  /** `isGameOver` holds exactly when no cell is empty and no cell has a right or lower
      neighbour of its own value. */
  lemma GameOverScan(tiles: seq<Tile>)
    ensures IsGameOver(tiles) <==>
      |EmptyCells(tiles)| == 0 && forall c :: OnGrid(c) ==> CellClear(tiles, c)
  {
    ClearFromAll(tiles, 0);
    if ClearFrom(tiles, 0) {
      forall c | OnGrid(c) ensures CellClear(tiles, c) {
        var k := RowMajor(c);
        assert CellAt(k) == c;
      }
    }
    if forall c :: OnGrid(c) ==> CellClear(tiles, c) {
      forall k | 0 <= k < CellCount ensures CellClear(tiles, CellAt(k)) {
        assert OnGrid(CellAt(k));
      }
    }
  }

  /** On a board whose tiles lie on distinct grid cells, the tile found at a cell is the
      only tile there. */
  lemma FindUnique(tiles: seq<Tile>, i: int)
    requires DistinctPositions(tiles)
    requires 0 <= i < |tiles|
    ensures Find(tiles, tiles[i].Pos()) == Some(tiles[i])
  {
    var r := FindIndex(tiles, tiles[i].Pos());
    assert r.Some?;
    assert r.value == i;
  }

  /** A tile whose right or lower neighbour carries its value leaves its cell not clear. */
  lemma NeighbourBlocks(tiles: seq<Tile>, i: int, j: int)
    requires DistinctPositions(tiles) && 0 <= i < |tiles| && 0 <= j < |tiles|
    requires tiles[j].Pos() in {Cell(tiles[i].row, tiles[i].col + 1), Cell(tiles[i].row + 1, tiles[i].col)}
    requires tiles[i].value == tiles[j].value
    ensures !CellClear(tiles, tiles[i].Pos())
  {
    FindUnique(tiles, i);
    FindUnique(tiles, j);
  }

  /** Two tiles on neighbouring cells with the same value leave a cell that is not clear. */
  lemma EqualNeighboursBlock(tiles: seq<Tile>)
    requires Settled(tiles) && HasEqualNeighbours(tiles)
    ensures exists c :: OnGrid(c) && !CellClear(tiles, c)
  {
    var i, j :| 0 <= i < |tiles| && 0 <= j < |tiles| &&
      Adjacent(tiles[i].Pos(), tiles[j].Pos()) && tiles[i].value == tiles[j].value;
    var a, b := tiles[i].Pos(), tiles[j].Pos();
    if b.row == a.row + 1 || b.col == a.col + 1 {
      NeighbourBlocks(tiles, i, j);
      assert OnGrid(a);
    } else {
      NeighbourBlocks(tiles, j, i);
      assert OnGrid(b);
    }
  }

  /** Without two equal tiles on neighbouring cells, a cell is clear. */
  lemma NoEqualNeighboursClear(tiles: seq<Tile>, c: Cell)
    requires !HasEqualNeighbours(tiles)
    ensures CellClear(tiles, c)
  {
    match Find(tiles, c)
    case None =>
    case Some(t) =>
      var i :| 0 <= i < |tiles| && tiles[i] == t;
      var right, down := Cell(c.row, c.col + 1), Cell(c.row + 1, c.col);
      if ValueAt(tiles, right, t.value) {
        var u := Find(tiles, right).value;
        var j :| 0 <= j < |tiles| && tiles[j] == u;
        assert Adjacent(tiles[i].Pos(), tiles[j].Pos());
      }
      if ValueAt(tiles, down, t.value) {
        var u := Find(tiles, down).value;
        var j :| 0 <= j < |tiles| && tiles[j] == u;
        assert Adjacent(tiles[i].Pos(), tiles[j].Pos());
      }
  }

  /** The game is over exactly when all sixteen cells hold a tile and no two tiles on
      neighbouring cells, across or down, have the same value. Checking only the right
      and lower neighbour of every cell is enough. */
  lemma GameOverCharacterization(tiles: seq<Tile>)
    requires Settled(tiles)
    ensures IsGameOver(tiles) <==> |tiles| == CellCount && !HasEqualNeighbours(tiles)
  {
    EmptyCount(tiles);
    GameOverScan(tiles);
    if HasEqualNeighbours(tiles) {
      EqualNeighboursBlock(tiles);
    } else {
      forall c | OnGrid(c) ensures CellClear(tiles, c) {
        NoEqualNeighboursClear(tiles, c);
      }
    }
  }
}
