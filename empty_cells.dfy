/** Enumeration of the cells no tile occupies (`getEmptyCells`). */
module Cells {
  import opened Tiles

  /** Row-major index of a cell. */
  function RowMajor(c: Cell): int {
    c.row * GridSize + c.col
  }

  /** The cell with row-major index `k`. */
  function CellAt(k: int): (c: Cell)
    requires 0 <= k < CellCount
    ensures OnGrid(c) && RowMajor(c) == k
  {
    Cell(k / GridSize, k % GridSize)
  }

  /** All sixteen cells in row-major order. */
  function AllCells(): seq<Cell> {
    seq(CellCount, k requires 0 <= k < CellCount => CellAt(k))
  }

  /** The cells of `cells` that no tile occupies, in the order of `cells`. */
  function FreeAmong(tiles: seq<Tile>, cells: seq<Cell>): (r: seq<Cell>)
    ensures forall c :: c in r <==> c in cells && !Occupied(tiles, c)
    decreases |cells|
  {
    if |cells| == 0 then []
    else
      var last := cells[|cells| - 1];
      FreeAmong(tiles, cells[..|cells| - 1]) + (if Occupied(tiles, last) then [] else [last])
  }

  /** The empty cells of the board, in row-major order. */
  function EmptyCells(tiles: seq<Tile>): seq<Cell> {
    FreeAmong(tiles, AllCells())
  }

  /** The on-grid cells holding at least one tile. */
  function OccupiedCells(tiles: seq<Tile>): set<Cell> {
    set c | c in Positions(tiles) && OnGrid(c)
  }

  predicate StrictlyRowMajor(cs: seq<Cell>) {
    forall i, j :: 0 <= i < j < |cs| ==> RowMajor(cs[i]) < RowMajor(cs[j])
  }

  /** Builds the list with two nested loops over rows and columns, as the page does. */
  method GetEmptyCells(tiles: seq<Tile>) returns (empty: seq<Cell>)
    ensures empty == EmptyCells(tiles)
  {
    var occupied := Positions(tiles);
    empty := [];
    for row := 0 to GridSize
      invariant empty == FreeAmong(tiles, AllCells()[..row * GridSize])
    {
      for col := 0 to GridSize
        invariant empty == FreeAmong(tiles, AllCells()[..row * GridSize + col])
      {
        var k := row * GridSize + col;
        assert AllCells()[..k + 1][..k] == AllCells()[..k];
        CellAtRowCol(row, col);
        if Cell(row, col) !in occupied {
          empty := empty + [Cell(row, col)];
        }
      }
    }
    assert AllCells()[..GridSize * GridSize] == AllCells();
  }

  lemma CellAtRowCol(row: int, col: int)
    requires 0 <= row < GridSize && 0 <= col < GridSize
    ensures AllCells()[row * GridSize + col] == Cell(row, col)
  {
    var c := CellAt(row * GridSize + col);
    assert RowMajor(c) == RowMajor(Cell(row, col));
  }

  lemma {:induction false} FreeAmongSorted(tiles: seq<Tile>, cells: seq<Cell>)
    requires StrictlyRowMajor(cells)
    ensures StrictlyRowMajor(FreeAmong(tiles, cells))
    ensures |FreeAmong(tiles, cells)| <= |cells|
    decreases |cells|
  {
    if |cells| > 0 {
      var init := cells[..|cells| - 1];
      FreeAmongSorted(tiles, init);
      var r := FreeAmong(tiles, init);
      forall c | c in r ensures RowMajor(c) < RowMajor(cells[|cells| - 1]) {
        var k :| 0 <= k < |init| && init[k] == c;
      }
    }
  }

  lemma AllCellsFacts()
    ensures |AllCells()| == CellCount
    ensures StrictlyRowMajor(AllCells())
    ensures forall c :: c in AllCells() <==> OnGrid(c)
  {
    forall c | OnGrid(c) ensures c in AllCells() {
      assert AllCells()[RowMajor(c)] == c;
    }
  }

  /** A sequence ordered strictly by a key has no repeated element, so it has as many
      elements as its set of elements. */
  lemma {:induction false} SortedCardinality(cs: seq<Cell>)
    requires StrictlyRowMajor(cs)
    ensures |set c | c in cs| == |cs|
    decreases |cs|
  {
    if |cs| > 0 {
      var init := cs[..|cs| - 1];
      var last := cs[|cs| - 1];
      SortedCardinality(init);
      assert last !in init;
      assert (set c | c in cs) == (set c | c in init) + {last};
    }
  }

  /** `getEmptyCells` returns exactly the cells no tile occupies, each once, in row-major
      order; their number is 16 minus the number of distinct occupied cells. */
  lemma EmptyCellsSpec(tiles: seq<Tile>)
    ensures forall c :: c in EmptyCells(tiles) <==> OnGrid(c) && !Occupied(tiles, c)
    ensures StrictlyRowMajor(EmptyCells(tiles))
    ensures |EmptyCells(tiles)| == CellCount - |OccupiedCells(tiles)|
  {
    AllCellsFacts();
    FreeAmongSorted(tiles, AllCells());
    var e := EmptyCells(tiles);
    SortedCardinality(e);
    SortedCardinality(AllCells());
    var grid := set c | c in AllCells();
    var free := set c | c in e;
    assert free == grid - OccupiedCells(tiles);
    assert OccupiedCells(tiles) <= grid;
  }

  /** With no tile on the board every cell is empty (the start of a game). */
  lemma EmptyBoard()
    ensures EmptyCells([]) == AllCells()
  {
    EmptyAmong(AllCells());
  }

  lemma {:induction false} EmptyAmong(cells: seq<Cell>)
    ensures FreeAmong([], cells) == cells
    decreases |cells|
  {
    if |cells| > 0 {
      var last := cells[|cells| - 1];
      EmptyAmong(cells[..|cells| - 1]);
      assert Positions([]) == [];
      assert FreeAmong([], cells) == cells[..|cells| - 1] + [last];
      assert cells[..|cells| - 1] + [last] == cells;
    }
  }

  /** On a board whose tiles sit on distinct cells of the grid, the number of empty cells
      is 16 minus the number of tiles. */
  lemma EmptyCount(tiles: seq<Tile>)
    requires forall k :: 0 <= k < |tiles| ==> OnGrid(tiles[k].Pos())
    requires DistinctPositions(tiles)
    ensures |EmptyCells(tiles)| == CellCount - |tiles|
    ensures |tiles| <= CellCount
  {
    EmptyCellsSpec(tiles);
    DistinctCardinality(tiles);
    assert OccupiedCells(tiles) == set c | c in Positions(tiles);
  }

  lemma {:induction false} DistinctCardinality(tiles: seq<Tile>)
    requires DistinctPositions(tiles)
    ensures |set c | c in Positions(tiles)| == |tiles|
    decreases |tiles|
  {
    if |tiles| > 0 {
      var init := tiles[..|tiles| - 1];
      var last := tiles[|tiles| - 1];
      DistinctCardinality(init);
      assert last.Pos() !in Positions(init);
      assert (set c | c in Positions(tiles)) == (set c | c in Positions(init)) + {last.Pos()};
    }
  }
}
