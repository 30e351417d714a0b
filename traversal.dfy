/** The order in which a move visits the cells (`getTraversalOrder`): the cells nearest
    the edge the tiles move toward come first. */
module Traversal {
  import opened Tiles

  /** Row visited at position `x` of the row loop: rows run bottom-up only for a move down. */
  function RowAt(d: Direction, x: int): int {
    if d == Down then GridSize - 1 - x else x
  }

  /** Column visited at position `x` of the column loop: right-to-left only for a move right. */
  function ColAt(d: Direction, x: int): int {
    if d == Right then GridSize - 1 - x else x
  }

  /** The traversal: the row loop outside, the column loop inside. */
  function TraversalOrder(d: Direction): seq<Cell> {
    seq(CellCount, k requires 0 <= k < CellCount => Cell(RowAt(d, k / GridSize), ColAt(d, k % GridSize)))
  }

  /** Position of an on-grid cell in the traversal for `d`. */
  function Rank(d: Direction, c: Cell): int {
    RowAt(d, c.row) * GridSize + ColAt(d, c.col)
  }

  /** Builds the order with two nested loops over (possibly reversed) ranges, as the page does. */
  method GetTraversalOrder(d: Direction) returns (order: seq<Cell>)
    ensures order == TraversalOrder(d)
  {
    var range := seq(GridSize, k requires 0 <= k < GridSize => k);
    var reversed := seq(GridSize, k requires 0 <= k < GridSize => GridSize - 1 - k);
    var rowIter := if d == Up then range else if d == Down then reversed else range;
    var colIter := if d == Left then range else if d == Right then reversed else range;
    order := [];
    for i := 0 to GridSize
      invariant order == TraversalOrder(d)[..i * GridSize]
    {
      for j := 0 to GridSize
        invariant order == TraversalOrder(d)[..i * GridSize + j]
      {
        var k := i * GridSize + j;
        assert TraversalOrder(d)[..k + 1] == TraversalOrder(d)[..k] + [TraversalOrder(d)[k]];
        assert TraversalOrder(d)[k] == Cell(rowIter[i], colIter[j]);
        order := order + [Cell(rowIter[i], colIter[j])];
      }
    }
    assert TraversalOrder(d)[..GridSize * GridSize] == TraversalOrder(d);
  }

  /** The traversal lists all sixteen cells, each exactly once: the cell at position `k`
      has rank `k`, and every on-grid cell sits at the position given by its rank. */
  lemma TraversalIsPermutation(d: Direction)
    ensures |TraversalOrder(d)| == CellCount
    ensures forall k :: 0 <= k < CellCount ==>
      OnGrid(TraversalOrder(d)[k]) && Rank(d, TraversalOrder(d)[k]) == k
    ensures forall c :: OnGrid(c) ==>
      0 <= Rank(d, c) < CellCount && TraversalOrder(d)[Rank(d, c)] == c
    ensures forall c :: c in TraversalOrder(d) <==> OnGrid(c)
  {
    forall c | OnGrid(c) ensures 0 <= Rank(d, c) < CellCount && TraversalOrder(d)[Rank(d, c)] == c {
      var k := Rank(d, c);
      assert k / GridSize == RowAt(d, c.row) && k % GridSize == ColAt(d, c.col);
    }
  }

  /** The traversal is row-major: rows descend only for a move down and columns descend
      only for a move right; otherwise both ascend. */
  lemma TraversalIsRowMajor(d: Direction)
    ensures forall k1, k2 :: 0 <= k1 < k2 < CellCount ==>
      var a, b := TraversalOrder(d)[k1], TraversalOrder(d)[k2];
      && (if d == Down then a.row >= b.row else a.row <= b.row)
      && (a.row == b.row ==> if d == Right then a.col > b.col else a.col < b.col)
  {
    forall k1, k2 | 0 <= k1 < k2 < CellCount
      ensures var a, b := TraversalOrder(d)[k1], TraversalOrder(d)[k2];
        && (if d == Down then a.row >= b.row else a.row <= b.row)
        && (a.row == b.row ==> if d == Right then a.col > b.col else a.col < b.col)
    {
      assert k1 / GridSize <= k2 / GridSize;
      assert k1 / GridSize == k2 / GridSize ==> k1 % GridSize < k2 % GridSize;
    }
  }

  /** A cell lying further along the direction of the move is visited earlier: tiles nearer
      the target edge are resolved before the tiles behind them. */
  lemma AheadVisitedFirst(d: Direction, a: Cell, b: Cell)
    requires OnGrid(a) && OnGrid(b)
    requires Ahead(a, b, d) && b != a
    ensures Rank(d, b) < Rank(d, a)
  {
  }
}
