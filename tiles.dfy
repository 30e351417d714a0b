/** The board of the 2048 page: numbered tiles placed on a 4×4 grid.
    A board is the ordered list of tiles the page keeps in its state;
    positions are (row, col) pairs, row 0 at the top and column 0 at the left. */
module Tiles {

  datatype Option<T> = None | Some(value: T)

  /** Side of the square grid. */
  const GridSize: int := 4

  /** Number of cells of the grid. */
  const CellCount: int := 16

  /** A tile value: the game creates 2 and only ever doubles it. */
  type TileValue = v: int | v >= 2 witness 2

  datatype Direction = Up | Down | Left | Right

  datatype Cell = Cell(row: int, col: int)

  /** `isNew` drives the pop-in animation, `merging` marks a tile that slid onto an
      equal tile during the current move, `mergedResult` marks a tile made by a merge. */
  datatype Tile = Tile(id: nat, value: TileValue, row: int, col: int,
                       isNew: bool, merging: bool, mergedResult: bool)
  {
    function Pos(): Cell { Cell(row, col) }

    function MoveTo(c: Cell): (t: Tile)
      ensures t.Pos() == c
    {
      this.(row := c.row, col := c.col)
    }
  }

  /** A freshly created tile: new, not merging, not a merge result. */
  function CreateTile(id: nat, c: Cell, value: TileValue): (t: Tile)
    ensures t.Pos() == c && t.id == id && t.value == value
    ensures t.isNew && !t.merging && !t.mergedResult
  {
    Tile(id, value, c.row, c.col, true, false, false)
  }

  predicate OnGrid(c: Cell) {
    0 <= c.row < GridSize && 0 <= c.col < GridSize
  }

  /** The cell `k` steps from `c` in direction `d`. */
  function Advance(c: Cell, d: Direction, k: int): Cell {
    match d
    case Up => Cell(c.row - k, c.col)
    case Down => Cell(c.row + k, c.col)
    case Left => Cell(c.row, c.col - k)
    case Right => Cell(c.row, c.col + k)
  }

  /** The neighbour of `c` in direction `d`. */
  function Step(c: Cell, d: Direction): Cell {
    Advance(c, d, 1)
  }

  /** How far `b` lies beyond `a` along direction `d`. */
  function Dist(a: Cell, b: Cell, d: Direction): int {
    match d
    case Up => a.row - b.row
    case Down => b.row - a.row
    case Left => a.col - b.col
    case Right => b.col - a.col
  }

  /** `b` is `a` or lies on the ray from `a` in direction `d`. */
  predicate Ahead(a: Cell, b: Cell, d: Direction) {
    Dist(a, b, d) >= 0 && b == Advance(a, d, Dist(a, b, d))
  }

  lemma AheadTransitive(a: Cell, b: Cell, c: Cell, d: Direction)
    requires Ahead(a, b, d) && Ahead(b, c, d)
    ensures Ahead(a, c, d) && Dist(a, c, d) == Dist(a, b, d) + Dist(b, c, d)
  {
  }

  /** Index of the first tile at `c`, as `Array.prototype.find` scans. */
  function FindIndex(tiles: seq<Tile>, c: Cell): (r: Option<nat>)
    ensures r.Some? ==> r.value < |tiles| && tiles[r.value].Pos() == c
    ensures r.Some? ==> forall k :: 0 <= k < r.value ==> tiles[k].Pos() != c
    ensures r.None? ==> forall k :: 0 <= k < |tiles| ==> tiles[k].Pos() != c
  {
    if |tiles| == 0 then None
    else if tiles[0].Pos() == c then Some(0)
    else match FindIndex(tiles[1..], c)
      case None => None
      case Some(k) => Some(k + 1)
  }

  /** The first tile at `c`, if any. */
  function Find(tiles: seq<Tile>, c: Cell): (r: Option<Tile>)
    ensures r.Some? <==> Occupied(tiles, c)
    ensures r.Some? ==> r.value in tiles && r.value.Pos() == c
  {
    match FindIndex(tiles, c)
    case None => None
    case Some(k) => Some(tiles[k])
  }

  /** The position of every tile, in board order. */
  function Positions(tiles: seq<Tile>): (ps: seq<Cell>)
    ensures |ps| == |tiles|
    ensures forall k :: 0 <= k < |tiles| ==> ps[k] == tiles[k].Pos()
  {
    seq(|tiles|, k requires 0 <= k < |tiles| => tiles[k].Pos())
  }

  predicate Occupied(tiles: seq<Tile>, c: Cell) {
    c in Positions(tiles)
  }

  /** No two tiles share a cell. */
  predicate DistinctPositions(tiles: seq<Tile>) {
    forall i, j :: 0 <= i < j < |tiles| ==> tiles[i].Pos() != tiles[j].Pos()
  }

  /** A board between moves: every tile on the grid, one tile per cell, none merging. */
  predicate Settled(tiles: seq<Tile>) {
    && (forall k :: 0 <= k < |tiles| ==> OnGrid(tiles[k].Pos()) && !tiles[k].merging)
    && DistinctPositions(tiles)
  }

  /** Tile ids are pairwise distinct and all below the next id the counter hands out. */
  predicate FreshIds(tiles: seq<Tile>, nextId: nat) {
    && (forall k :: 0 <= k < |tiles| ==> tiles[k].id < nextId)
    && (forall i, j :: 0 <= i < j < |tiles| ==> tiles[i].id != tiles[j].id)
  }

  /** The counter hands out an id no tile on the board has, and stays ahead of every id. */
  lemma CreateIsFresh(tiles: seq<Tile>, nextId: nat, c: Cell, value: TileValue)
    requires FreshIds(tiles, nextId)
    ensures forall k :: 0 <= k < |tiles| ==> tiles[k].id != CreateTile(nextId, c, value).id
    ensures FreshIds(tiles + [CreateTile(nextId, c, value)], nextId + 1)
  {
  }

  predicate PowerOfTwo(v: int)
    decreases if v < 0 then 0 else v
  {
    v == 1 || (v >= 2 && v % 2 == 0 && PowerOfTwo(v / 2))
  }

  /** Every value on the board is a power of two. */
  predicate PowerValues(tiles: seq<Tile>) {
    forall k :: 0 <= k < |tiles| ==> PowerOfTwo(tiles[k].value)
  }
}
