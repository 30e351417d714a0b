/** A whole move (`moveTiles`): the slide phase followed by the settle phase, and what a
    move does to a board between moves. */
module Move {
  import opened Tiles
  import opened Cells
  import opened Traversal
  import opened Slide
  import opened Settle
  import opened GameOver

  /** One move in direction `d`, given the tile counter, the scores, the stored best
      score and the random pick for the new tile. */
  function MoveSpec(tiles: seq<Tile>, d: Direction, nextId: nat, score: int, best: int,
                    store: Option<int>, pick: nat): SettleState
  {
    SettleSpec(SlideSpec(tiles, d), nextId, score, best, store, pick)
  }

  /** A board between moves: one tile per grid cell, fresh ids, power-of-two values. */
  ghost predicate GoodBoard(tiles: seq<Tile>, nextId: nat) {
    Settled(tiles) && FreshIds(tiles, nextId) && PowerValues(tiles)
  }

  /** The slide of a good board hands the settle phase a slid board. */
  lemma SlideGivesSlid(tiles: seq<Tile>, d: Direction, nextId: nat)
    requires GoodBoard(tiles, nextId)
    ensures var s := SlideSpec(tiles, d);
      && SlidBoard(s.moved, s.merged, nextId)
      && |s.moved| == |tiles|
      && (s.hasMoved && s.merged == {} ==> |tiles| < CellCount)
  {
    SlideMovesAlong(tiles, d);
    SlideMergeRules(tiles, d);
    var s := SlideSpec(tiles, d);
    assert forall j :: 0 <= j < |tiles| ==> Follows(tiles[j], s.moved[j], d);
    forall j | 0 <= j < |s.moved| ensures !s.moved[j].isNew && s.moved[j].id == tiles[j].id
      && s.moved[j].value == tiles[j].value
    {
      assert Follows(tiles[j], s.moved[j], d);
    }
  }

  /** Adding the new tile keeps a good board good. */
  lemma SpawnKeepsBoard(st: SettleState, hasMoved: bool, pick: nat)
    requires GoodBoard(st.afterMerge, st.nextId)
    ensures var r := Spawn(st, hasMoved, pick);
      && GoodBoard(r.afterMerge, r.nextId)
      && r.score == st.score && r.best == st.best && r.store == st.store
      && match SpawnCell(st.afterMerge, hasMoved, pick)
         case None => r.afterMerge == st.afterMerge && r.nextId == st.nextId
         case Some(cell) =>
           && r.afterMerge == st.afterMerge + [CreateTile(st.nextId, cell, 2)]
           && r.nextId == st.nextId + 1
           && cell in EmptyCells(st.afterMerge)
  {
    match SpawnCell(st.afterMerge, hasMoved, pick)
    case None =>
    case Some(cell) =>
      EmptyCellsSpec(st.afterMerge);
      AddKeepsBoard(st.afterMerge, st.nextId, cell);
  }

  /** A new 2 with the next id on an empty grid cell keeps a good board good. */
  lemma AddKeepsBoard(board: seq<Tile>, nextId: nat, cell: Cell)
    requires GoodBoard(board, nextId) && OnGrid(cell) && !Occupied(board, cell)
    ensures GoodBoard(board + [CreateTile(nextId, cell, 2)], nextId + 1)
  {
    forall k | 0 <= k < |board| ensures board[k].Pos() != cell {
      assert Positions(board)[k] == board[k].Pos();
    }
    assert PowerOfTwo(1);
  }

  /** After a move that changed something, the merges leave an empty cell: either a merge
      freed one, or the board was not full. */
  lemma RoomForSpawn(tiles: seq<Tile>, d: Direction, nextId: nat, score: int, best: int,
                     store: Option<int>)
    requires GoodBoard(tiles, nextId)
    ensures var s := SlideSpec(tiles, d);
      var c := Collapse(s.moved, s.merged, nextId, score, best, store);
      && GoodBoard(c.afterMerge, c.nextId)
      && |c.afterMerge| == |tiles| - |s.merged|
      && c.nextId == nextId + |s.merged|
      && (s.hasMoved ==> |EmptyCells(c.afterMerge)| > 0)
  {
    var s := SlideSpec(tiles, d);
    SlideGivesSlid(tiles, d, nextId);
    CollapseSettled(s.moved, s.merged, nextId, score, best, store);
    CollapseCount(s.moved, s.merged, nextId, score, best, store);
    var c := Collapse(s.moved, s.merged, nextId, score, best, store);
    EmptyCount(tiles);
    EmptyCount(c.afterMerge);
  }

  /** A move maps a good board to a good board; it removes one tile per merged cell and
      adds one new 2 exactly when some tile changed cell, on a cell that was empty once
      the merges were done; the counter hands out one id per merge and one for the new
      tile. */
  lemma MoveKeepsBoard(tiles: seq<Tile>, d: Direction, nextId: nat, score: int, best: int,
                       store: Option<int>, pick: nat)
    requires GoodBoard(tiles, nextId)
    ensures var s := SlideSpec(tiles, d);
      var c := Collapse(s.moved, s.merged, nextId, score, best, store);
      var r := MoveSpec(tiles, d, nextId, score, best, store, pick);
      && GoodBoard(r.afterMerge, r.nextId)
      && |r.afterMerge| == |tiles| - |s.merged| + (if s.hasMoved then 1 else 0)
      && r.nextId == nextId + |s.merged| + (if s.hasMoved then 1 else 0)
      && (s.hasMoved ==>
            && |r.afterMerge| > 0
            && r.afterMerge[..|r.afterMerge| - 1] == c.afterMerge
            && var t := r.afterMerge[|r.afterMerge| - 1];
               t.value == 2 && t.isNew && !t.mergedResult && t.Pos() in EmptyCells(c.afterMerge))
      && (!s.hasMoved ==> r.afterMerge == c.afterMerge)
  {
    var s := SlideSpec(tiles, d);
    RoomForSpawn(tiles, d, nextId, score, best, store);
    var c := Collapse(s.moved, s.merged, nextId, score, best, store);
    SpawnKeepsBoard(c, s.hasMoved, pick);
    var r := MoveSpec(tiles, d, nextId, score, best, store, pick);
    if s.hasMoved {
      assert r.afterMerge[..|r.afterMerge| - 1] == c.afterMerge;
    }
  }

  lemma MoveKeepsGood(tiles: seq<Tile>, d: Direction, nextId: nat, score: int, best: int,
                      store: Option<int>, pick: nat)
    requires GoodBoard(tiles, nextId)
    ensures var r := MoveSpec(tiles, d, nextId, score, best, store, pick);
      GoodBoard(r.afterMerge, r.nextId)
  {
    MoveKeepsBoard(tiles, d, nextId, score, best, store, pick);
  }

  /** The score of a move grows by exactly the values of the tiles its merges make, each
      the double of the tiles merged; the best score becomes the larger of itself and the
      new score once the score has grown, and never decreases; the stored best score is
      rewritten exactly when the best score changes. */
  lemma MoveScore(tiles: seq<Tile>, d: Direction, nextId: nat, score: int, best: int,
                  store: Option<int>, pick: nat)
    ensures var r := MoveSpec(tiles, d, nextId, score, best, store, pick);
      && r.score == score + MadeValue(r.afterMerge)
      && r.score >= score
      && r.best == (if r.score != score then Max(best, r.score) else best)
      && r.best >= best
      && r.store == (if r.best != best then Some(r.best) else store)
  {
    var s := SlideSpec(tiles, d);
    SlideMovesAlong(tiles, d);
    forall j | 0 <= j < |s.moved| ensures !s.moved[j].isNew {
      assert Follows(tiles[j], s.moved[j], d);
    }
    CollapseScore(s.moved, s.merged, nextId, score, best, store);
    var c := Collapse(s.moved, s.merged, nextId, score, best, store);
    match SpawnCell(c.afterMerge, s.hasMoved, pick)
    case None =>
    case Some(cell) =>
      MadeValueAppend(c.afterMerge, CreateTile(c.nextId, cell, 2));
  }

  /** A settle over tiles none of which is merging, with no merged cell, keeps them all
      and changes nothing else. */
  lemma {:induction false} KeepAll(moved: seq<Tile>, nextId: nat, score: int, best: int, store: Option<int>)
    requires forall j :: 0 <= j < |moved| ==> !moved[j].merging
    ensures Collapse(moved, {}, nextId, score, best, store) == SettleState(moved, {}, nextId, score, best, store)
    decreases |moved|
  {
    if |moved| > 0 {
      KeepAll(moved[..|moved| - 1], nextId, score, best, store);
      assert moved[..|moved| - 1] + [moved[|moved| - 1]] == moved;
    }
  }

  /** A move in which no tile changes cell merges nothing, adds no tile and leaves the
      score, the best score, the stored best score and the counter as they were; the
      board only loses its `new` marks. */
  lemma NoMoveNoChange(tiles: seq<Tile>, d: Direction, nextId: nat, score: int, best: int,
                       store: Option<int>, pick: nat)
    requires Settled(tiles)
    requires !SlideSpec(tiles, d).hasMoved
    ensures MoveSpec(tiles, d, nextId, score, best, store, pick) ==
      SettleState(Prepare(tiles), {}, nextId, score, best, store)
  {
    SlideMovesAlong(tiles, d);
    KeepAll(Prepare(tiles), nextId, score, best, store);
  }

  /** On a full board, every grid cell holds a tile of the board prepared for the move. */
  lemma FullBoardFind(tiles: seq<Tile>, c: Cell)
    requires Settled(tiles) && |tiles| == CellCount && OnGrid(c)
    ensures exists k :: 0 <= k < |tiles| && tiles[k].Pos() == c
    ensures Find(Prepare(tiles), c).Some?
  {
    EmptyCount(tiles);
    EmptyCellsSpec(tiles);
    assert |EmptyCells(tiles)| == 0;
    assert c !in EmptyCells(tiles);
    var k :| 0 <= k < |tiles| && Positions(tiles)[k] == c;
    assert Positions(Prepare(tiles))[k] == c;
  }

  /** On a game-over board a tile's walk cannot even start: its neighbour along the move
      is off the grid or holds a tile of another value. */
  lemma StuckCell(tiles: seq<Tile>, d: Direction, cell: Cell)
    requires Settled(tiles) && |tiles| == CellCount && !HasEqualNeighbours(tiles)
    requires OnGrid(cell)
    ensures SlideCell(Start(tiles), cell, d) == Start(tiles)
  {
    var moved := Prepare(tiles);
    FullBoardFind(tiles, cell);
    var j := FindIndex(moved, cell).value;
    var t := moved[j];
    var next := Step(cell, d);
    if OnGrid(next) {
      FullBoardFind(tiles, next);
      var k := FindIndex(moved, next).value;
      assert Adjacent(tiles[j].Pos(), tiles[k].Pos());
      assert tiles[j].value != tiles[k].value;
    }
  }

  lemma {:induction false} StuckFold(tiles: seq<Tile>, d: Direction, cells: seq<Cell>)
    requires Settled(tiles) && |tiles| == CellCount && !HasEqualNeighbours(tiles)
    requires forall k :: 0 <= k < |cells| ==> OnGrid(cells[k])
    ensures SlideFold(Start(tiles), cells, d) == Start(tiles)
    decreases |cells|
  {
    if |cells| > 0 {
      StuckFold(tiles, d, cells[..|cells| - 1]);
      StuckCell(tiles, d, cells[|cells| - 1]);
    }
  }

  /** Once the game is over no direction moves any tile: the slide changes nothing and
      merges nothing. */
  lemma GameOverStuck(tiles: seq<Tile>, d: Direction)
    requires Settled(tiles) && IsGameOver(tiles)
    ensures SlideSpec(tiles, d) == Start(tiles)
    ensures !SlideSpec(tiles, d).hasMoved
  {
    GameOverCharacterization(tiles);
    TraversalIsPermutation(d);
    StuckFold(tiles, d, TraversalOrder(d));
  }
}
