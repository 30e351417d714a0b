/** The slide phase of a move (first half of `moveTiles`): every tile, visited in
    traversal order, walks toward the edge one cell at a time; a tile may enter a cell
    holding an equal tile once per cell per move, and then stops there. */
module Slide {
  import opened Tiles
  import opened Traversal
  import opened Cells

  /** What the slide hands to the settle phase: the moved copy of the board, the cells
      that received a merge (`mergedMap`) and whether any tile changed cell (`hasMoved`). */
  datatype SlideState = SlideState(moved: seq<Tile>, merged: set<Cell>, hasMoved: bool)

  /** Where one walk ends, and the merge marks after it. */
  datatype WalkResult = WalkResult(target: Cell, merged: set<Cell>)

  /** Steps left before the edge; bounds the walk. */
  function Remaining(c: Cell, d: Direction): nat {
    match d
    case Up => if c.row > 0 then c.row else 0
    case Down => if c.row < GridSize - 1 then GridSize - 1 - c.row else 0
    case Left => if c.col > 0 then c.col else 0
    case Right => if c.col < GridSize - 1 then GridSize - 1 - c.col else 0
  }

  /** The walk of a tile of value `value` from `at`: stop at the edge; enter an empty cell
      and go on; enter a cell whose tile has the same value and that has not received a
      merge yet, mark it and stop; otherwise stop. */
  function Walk(moved: seq<Tile>, merged: set<Cell>, at: Cell, value: int, d: Direction): WalkResult
    decreases Remaining(at, d)
  {
    var next := Step(at, d);
    if !OnGrid(next) then WalkResult(at, merged)
    else match Find(moved, next)
      case None => Walk(moved, merged, next, value, d)
      case Some(t) =>
        if t.value == value && next !in merged then WalkResult(next, merged + {next})
        else WalkResult(at, merged)
  }

  /** The tile the walk could not enter: `c` is the last cell of the grid in direction `d`,
      or the next cell holds a tile of another value, or a cell that has received a merge. */
  predicate Blocked(moved: seq<Tile>, merged: set<Cell>, c: Cell, value: int, d: Direction) {
    var next := Step(c, d);
    !OnGrid(next) ||
    match Find(moved, next)
    case None => false
    case Some(t) => t.value != value || next in merged
  }

  /** One iteration of the traversal loop: the first tile found at `cell` walks; if it
      ends elsewhere it takes its new cell, `hasMoved` is set, and it is flagged `merging`
      when its new cell has received a merge. */
  function SlideCell(s: SlideState, cell: Cell, d: Direction): SlideState {
    match FindIndex(s.moved, cell)
    case None => s
    case Some(j) =>
      var t := s.moved[j];
      var w := Walk(s.moved, s.merged, t.Pos(), t.value, d);
      if w.target != t.Pos() then
        var t' := t.MoveTo(w.target);
        SlideState(s.moved[j := if w.target in w.merged then t'.(merging := true) else t'], w.merged, true)
      else SlideState(s.moved, w.merged, s.hasMoved)
  }

  /** The traversal loop over a list of cells. */
  function SlideFold(s: SlideState, cells: seq<Cell>, d: Direction): SlideState
    decreases |cells|
  {
    if |cells| == 0 then s
    else SlideCell(SlideFold(s, cells[..|cells| - 1], d), cells[|cells| - 1], d)
  }

  /** The copy of the board the move works on: no tile is new any more. */
  function Prepare(tiles: seq<Tile>): (moved: seq<Tile>)
    ensures |moved| == |tiles|
    ensures forall k :: 0 <= k < |tiles| ==> moved[k] == tiles[k].(isNew := false)
  {
    seq(|tiles|, k requires 0 <= k < |tiles| => tiles[k].(isNew := false))
  }

  function Start(tiles: seq<Tile>): SlideState {
    SlideState(Prepare(tiles), {}, false)
  }

  /** The whole slide phase of a move in direction `d`. */
  function SlideSpec(tiles: seq<Tile>, d: Direction): SlideState {
    SlideFold(Start(tiles), TraversalOrder(d), d)
  }

  /** The slide phase as the page runs it: a loop over the traversal order, and for each
      tile found a walk that updates the merge marks, then the tile's cell and flags are
      updated in the copied board. */
  method SlideTiles(tiles: seq<Tile>, d: Direction) returns (moved: seq<Tile>, merged: set<Cell>, hasMoved: bool)
    ensures SlideState(moved, merged, hasMoved) == SlideSpec(tiles, d)
  {
    moved := Prepare(tiles);
    merged := {};
    hasMoved := false;
    var traverse := GetTraversalOrder(d);
    for i := 0 to |traverse|
      invariant SlideState(moved, merged, hasMoved) == SlideFold(Start(tiles), traverse[..i], d)
    {
      assert traverse[..i + 1][..i] == traverse[..i];
      assert SlideFold(Start(tiles), traverse[..i + 1], d) ==
        SlideCell(SlideState(moved, merged, hasMoved), traverse[i], d);
      var cell := traverse[i];
      var found := FindIndex(moved, cell);
      if found.None? {
        continue;
      }
      var j := found.value;
      var tile := moved[j];
      var target;
      target, merged := WalkTile(moved, merged, tile.Pos(), tile.value, d);
      if target != tile.Pos() {
        hasMoved := true;
        var updated := tile.MoveTo(target);
        if target in merged {
          updated := updated.(merging := true);
        }
        moved := moved[j := updated];
      }
    }
    assert traverse[..|traverse|] == traverse;
  }

  /** The `while (true)` walk of one tile of value `value` from cell `at`. */
  method WalkTile(moved: seq<Tile>, merged: set<Cell>, at: Cell, value: int, d: Direction)
    returns (target: Cell, marks: set<Cell>)
    ensures WalkResult(target, marks) == Walk(moved, merged, at, value, d)
  {
    target := at;
    marks := merged;
    while true
      invariant Walk(moved, marks, target, value, d) == Walk(moved, merged, at, value, d)
      invariant marks == merged
      decreases Remaining(target, d)
    {
      var next := Step(target, d);
      var nextTile := Find(moved, next);
      if !OnGrid(next) {
        return;
      }
      if nextTile.None? {
        target := next;
      } else if nextTile.value.value == value && next !in marks {
        target := next;
        marks := marks + {next};
        return;
      } else {
        return;
      }
    }
  }

  /** A walk moves only along the direction of the move, never leaves the grid, crosses
      only empty cells, and stops exactly at the edge, before a tile of another value,
      before a cell that has received a merge, or right after entering an equal-valued
      unmerged cell, which it then marks, the only change to the marks. */
  lemma {:induction false} WalkStops(moved: seq<Tile>, merged: set<Cell>, at: Cell, value: int, d: Direction)
    ensures var w := Walk(moved, merged, at, value, d);
      && Ahead(at, w.target, d)
      && (w.target != at ==> OnGrid(w.target))
      && (forall k :: 0 < k < Dist(at, w.target, d) ==> !Occupied(moved, Advance(at, d, k)))
      && if w.merged == merged then
           && (w.target != at ==> !Occupied(moved, w.target))
           && Blocked(moved, merged, w.target, value, d)
         else
           && w.merged == merged + {w.target}
           && w.target !in merged && w.target != at
           && Find(moved, w.target).Some? && Find(moved, w.target).value.value == value
    decreases Remaining(at, d)
  {
    var next := Step(at, d);
    if OnGrid(next) && Find(moved, next).None? {
      WalkStops(moved, merged, next, value, d);
      var w := Walk(moved, merged, next, value, d);
      AheadTransitive(at, next, w.target, d);
      forall k | 0 < k < Dist(at, w.target, d) ensures !Occupied(moved, Advance(at, d, k)) {
        if k > 1 {
          assert Advance(at, d, k) == Advance(next, d, k - 1);
        }
      }
    }
  }

  /** How a tile of the slid board relates to the tile it started as: only its cell, a
      cell further along the direction and on the grid, its `new` flag, now cleared, and
      its `merging` flag, set only if it changed cell, differ. */
  predicate Follows(t: Tile, m: Tile, d: Direction) {
    && m == t.(isNew := false).MoveTo(m.Pos()).(merging := m.merging)
    && Ahead(t.Pos(), m.Pos(), d)
    && (m.Pos() != t.Pos() ==> OnGrid(m.Pos()))
    && (m.Pos() == t.Pos() ==> m.merging == t.merging)
  }

  /** What holds of the slide's state at every iteration, for any input board. */
  ghost predicate Tracks(tiles: seq<Tile>, s: SlideState, d: Direction) {
    && |s.moved| == |tiles|
    && (forall j :: 0 <= j < |tiles| ==> Follows(tiles[j], s.moved[j], d))
    && (s.hasMoved <==> exists j :: 0 <= j < |tiles| && s.moved[j].Pos() != tiles[j].Pos())
    && (s.merged != {} ==> s.hasMoved)
  }

  lemma SlideCellTracks(tiles: seq<Tile>, s: SlideState, cell: Cell, d: Direction)
    requires Tracks(tiles, s, d)
    ensures Tracks(tiles, SlideCell(s, cell, d), d)
  {
    match FindIndex(s.moved, cell)
    case None =>
    case Some(j) =>
      var t := s.moved[j];
      WalkStops(s.moved, s.merged, t.Pos(), t.value, d);
      var w := Walk(s.moved, s.merged, t.Pos(), t.value, d);
      if w.target != t.Pos() {
        AheadTransitive(tiles[j].Pos(), t.Pos(), w.target, d);
        var s' := SlideCell(s, cell, d);
        assert s'.moved[j].Pos() != tiles[j].Pos();
      }
  }

  lemma {:induction false} SlideFoldTracks(tiles: seq<Tile>, cells: seq<Cell>, d: Direction)
    ensures Tracks(tiles, SlideFold(Start(tiles), cells, d), d)
    decreases |cells|
  {
    if |cells| > 0 {
      SlideFoldTracks(tiles, cells[..|cells| - 1], d);
      SlideCellTracks(tiles, SlideFold(Start(tiles), cells[..|cells| - 1], d), cells[|cells| - 1], d);
    }
  }

  /** For any board: the slide keeps every tile (same id, value and order), clears its
      `new` flag and moves it only along the direction and within the grid; `hasMoved`
      holds exactly when some tile ends on another cell; and when nothing moved the
      board is unchanged and no cell has received a merge. */
  lemma SlideMovesAlong(tiles: seq<Tile>, d: Direction)
    ensures var s := SlideSpec(tiles, d);
      && |s.moved| == |tiles|
      && (forall j :: 0 <= j < |tiles| ==> Follows(tiles[j], s.moved[j], d))
      && (s.hasMoved <==> exists j :: 0 <= j < |tiles| && s.moved[j].Pos() != tiles[j].Pos())
      && (!s.hasMoved ==> s.moved == Prepare(tiles) && s.merged == {})
  {
    SlideFoldTracks(tiles, TraversalOrder(d), d);
    var s := SlideSpec(tiles, d);
    if !s.hasMoved {
      forall j | 0 <= j < |tiles| ensures s.moved[j] == Prepare(tiles)[j] {
        assert s.moved[j].Pos() == tiles[j].Pos();
      }
    }
  }

  /** The shape of the slid board that the settle phase relies on: merging tiles sit
      exactly on the cells that received a merge, one per cell; the other tiles sit on
      distinct cells; and each merging tile shares its cell with a non-merging tile of the
      same value, the tile it merged into. */
  ghost predicate MergeShape(moved: seq<Tile>, merged: set<Cell>) {
    && MergingOnMerged(moved, merged)
    && (forall c :: c in merged ==> exists j :: 0 <= j < |moved| && moved[j].merging && moved[j].Pos() == c)
    && MergingDistinct(moved)
    && OthersDistinct(moved)
    && (forall j :: 0 <= j < |moved| && moved[j].merging ==>
          exists k :: 0 <= k < |moved| && !moved[k].merging &&
            moved[k].Pos() == moved[j].Pos() && moved[k].value == moved[j].value)
  }

  predicate MergingOnMerged(moved: seq<Tile>, merged: set<Cell>) {
    forall j :: 0 <= j < |moved| && moved[j].merging ==> moved[j].Pos() in merged
  }

  predicate MergingDistinct(moved: seq<Tile>) {
    forall i, j :: 0 <= i < j < |moved| && moved[i].merging && moved[j].merging ==>
      moved[i].Pos() != moved[j].Pos()
  }

  predicate OthersDistinct(moved: seq<Tile>) {
    forall i, j :: 0 <= i < j < |moved| && !moved[i].merging && !moved[j].merging ==>
      moved[i].Pos() != moved[j].Pos()
  }

  lemma MergedCellsOccupied(moved: seq<Tile>, merged: set<Cell>, c: Cell)
    requires MergeShape(moved, merged)
    requires c in merged
    ensures Occupied(moved, c)
  {
    var j :| 0 <= j < |moved| && moved[j].merging && moved[j].Pos() == c;
    assert Positions(moved)[j] == c;
  }

  /** A non-merging tile moving onto an empty cell keeps the shape. */
  lemma MoveKeepsShape(moved: seq<Tile>, merged: set<Cell>, j0: int, target: Cell)
    requires MergeShape(moved, merged)
    requires 0 <= j0 < |moved| && !moved[j0].merging && moved[j0].Pos() !in merged
    requires !Occupied(moved, target)
    ensures MergeShape(moved[j0 := moved[j0].MoveTo(target)], merged)
  {
    var moved' := moved[j0 := moved[j0].MoveTo(target)];
    forall j | 0 <= j < |moved| && j != j0 ensures moved[j].Pos() != target {
      assert Positions(moved)[j] == moved[j].Pos();
    }
    forall c | c in merged
      ensures exists j :: 0 <= j < |moved'| && moved'[j].merging && moved'[j].Pos() == c
    {
      var j :| 0 <= j < |moved| && moved[j].merging && moved[j].Pos() == c;
      assert moved'[j] == moved[j];
    }
    forall j | 0 <= j < |moved'| && moved'[j].merging
      ensures (exists k :: 0 <= k < |moved'| && !moved'[k].merging &&
                 moved'[k].Pos() == moved'[j].Pos() && moved'[k].value == moved'[j].value)
    {
      var k :| 0 <= k < |moved| && !moved[k].merging &&
        moved[k].Pos() == moved[j].Pos() && moved[k].value == moved[j].value;
      assert moved'[k] == moved[k];
    }
  }

  /** A non-merging tile entering an unmerged cell that holds a tile of its value, and
      flagged `merging`, keeps the shape with that cell added to the marks. */
  lemma MergeKeepsShape(moved: seq<Tile>, merged: set<Cell>, j0: int, target: Cell, k0: int)
    requires MergeShape(moved, merged)
    requires 0 <= j0 < |moved| && !moved[j0].merging && moved[j0].Pos() !in merged
    requires target !in merged
    requires 0 <= k0 < |moved| && k0 != j0 && moved[k0].Pos() == target && moved[k0].value == moved[j0].value
    ensures MergeShape(moved[j0 := moved[j0].MoveTo(target).(merging := true)], merged + {target})
  {
    assert !moved[k0].merging;
    MergeKeepsCover(moved, merged, j0, target);
    MergeKeepsPartners(moved, merged, j0, target, k0);
  }

  lemma MergeKeepsCover(moved: seq<Tile>, merged: set<Cell>, j0: int, target: Cell)
    requires MergeShape(moved, merged)
    requires 0 <= j0 < |moved| && !moved[j0].merging
    ensures var moved' := moved[j0 := moved[j0].MoveTo(target).(merging := true)];
      forall c :: c in merged + {target} ==>
        exists j :: 0 <= j < |moved'| && moved'[j].merging && moved'[j].Pos() == c
  {
    var moved' := moved[j0 := moved[j0].MoveTo(target).(merging := true)];
    forall c | c in merged + {target}
      ensures exists j :: 0 <= j < |moved'| && moved'[j].merging && moved'[j].Pos() == c
    {
      if c == target {
        assert moved'[j0].merging && moved'[j0].Pos() == c;
      } else {
        var j :| 0 <= j < |moved| && moved[j].merging && moved[j].Pos() == c;
        assert moved'[j] == moved[j];
      }
    }
  }

  lemma MergeKeepsPartners(moved: seq<Tile>, merged: set<Cell>, j0: int, target: Cell, k0: int)
    requires MergeShape(moved, merged)
    requires 0 <= j0 < |moved| && !moved[j0].merging && moved[j0].Pos() !in merged
    requires 0 <= k0 < |moved| && k0 != j0 && !moved[k0].merging
    requires moved[k0].Pos() == target && moved[k0].value == moved[j0].value
    ensures var moved' := moved[j0 := moved[j0].MoveTo(target).(merging := true)];
      forall j :: 0 <= j < |moved'| && moved'[j].merging ==>
        exists k :: 0 <= k < |moved'| && !moved'[k].merging &&
          moved'[k].Pos() == moved'[j].Pos() && moved'[k].value == moved'[j].value
  {
    var moved' := moved[j0 := moved[j0].MoveTo(target).(merging := true)];
    forall j | 0 <= j < |moved'| && moved'[j].merging
      ensures (exists k :: 0 <= k < |moved'| && !moved'[k].merging &&
                 moved'[k].Pos() == moved'[j].Pos() && moved'[k].value == moved'[j].value)
    {
      if j == j0 {
        assert moved'[k0] == moved[k0];
      } else {
        var k :| 0 <= k < |moved| && !moved[k].merging &&
          moved[k].Pos() == moved[j].Pos() && moved[k].value == moved[j].value;
        assert moved'[k] == moved[k];
      }
    }
  }

  /** The cells the traversal has visited after `i` iterations. */
  predicate Visited(d: Direction, i: int, c: Cell) {
    OnGrid(c) && Rank(d, c) < i
  }

  /** The loop invariant of the slide on a settled board, after `i` iterations: tiles
      starting on unvisited cells are untouched, tiles starting on visited cells stay on
      visited cells, only visited cells have received merges, and the board has the
      merge shape. */
  ghost predicate MergeInv(tiles: seq<Tile>, s: SlideState, d: Direction, i: int) {
    && Tracks(tiles, s, d)
    && Bookkeeping(tiles, s, d, i)
    && MergeShape(s.moved, s.merged)
    && (s.hasMoved && s.merged == {} ==> |tiles| < CellCount)
  }

  ghost predicate Bookkeeping(tiles: seq<Tile>, s: SlideState, d: Direction, i: int)
    requires |s.moved| == |tiles|
  {
    && (forall j :: 0 <= j < |tiles| && !Visited(d, i, tiles[j].Pos()) ==> s.moved[j] == tiles[j].(isNew := false))
    && (forall j :: 0 <= j < |tiles| && Visited(d, i, tiles[j].Pos()) ==> Visited(d, i, s.moved[j].Pos()))
    && (forall c :: c in s.merged ==> Visited(d, i, c))
  }

  /** The tiles found on the cell the traversal is about to visit are those that started
      there, untouched. */
  lemma OnlyStarterAt(tiles: seq<Tile>, s: SlideState, d: Direction, i: int, j: int)
    requires Settled(tiles)
    requires 0 <= i < CellCount && MergeInv(tiles, s, d, i)
    requires OnGrid(TraversalOrder(d)[i]) && Rank(d, TraversalOrder(d)[i]) == i
    requires 0 <= j < |tiles| && s.moved[j].Pos() == TraversalOrder(d)[i]
    ensures tiles[j].Pos() == TraversalOrder(d)[i] && s.moved[j] == tiles[j].(isNew := false)
  {
  }

  /** Visiting `cell`, where the tile `j0` started (if any), keeps the bookkeeping when
      only that tile changes and it and every mark end on visited cells. */
  lemma VisitStep(tiles: seq<Tile>, s: SlideState, s': SlideState, d: Direction, i: int, j0: int)
    requires 0 <= i < CellCount && |s.moved| == |tiles| && Bookkeeping(tiles, s, d, i)
    requires OnGrid(TraversalOrder(d)[i]) && Rank(d, TraversalOrder(d)[i]) == i
    requires forall j :: 0 <= j < |tiles| ==> (tiles[j].Pos() == TraversalOrder(d)[i] <==> j == j0)
    requires |s'.moved| == |tiles|
    requires forall j :: 0 <= j < |tiles| && j != j0 ==> s'.moved[j] == s.moved[j]
    requires 0 <= j0 < |tiles| ==> Visited(d, i + 1, s'.moved[j0].Pos())
    requires forall c :: c in s'.merged ==> Visited(d, i + 1, c)
    ensures Bookkeeping(tiles, s', d, i + 1)
  {
    TraversalIsPermutation(d);
    var cell := TraversalOrder(d)[i];
    forall j | 0 <= j < |tiles| && Visited(d, i + 1, tiles[j].Pos())
      ensures Visited(d, i + 1, s'.moved[j].Pos())
    {
      if j != j0 {
        assert TraversalOrder(d)[Rank(d, tiles[j].Pos())] == tiles[j].Pos();
      }
    }
  }

  lemma SlideCellNone(tiles: seq<Tile>, s: SlideState, d: Direction, i: int)
    requires Settled(tiles)
    requires 0 <= i < CellCount && MergeInv(tiles, s, d, i)
    requires OnGrid(TraversalOrder(d)[i]) && Rank(d, TraversalOrder(d)[i]) == i
    requires FindIndex(s.moved, TraversalOrder(d)[i]).None?
    ensures MergeInv(tiles, s, d, i + 1)
  {
    VisitStep(tiles, s, s, d, i, -1);
  }

  /** The shape after the tile `j0`, found on the cell about to be visited, has walked. */
  lemma SomeShape(s: SlideState, d: Direction, cell: Cell, j0: int)
    requires MergeShape(s.moved, s.merged)
    requires FindIndex(s.moved, cell) == Some(j0)
    requires !s.moved[j0].merging && cell !in s.merged
    ensures MergeShape(SlideCell(s, cell, d).moved, SlideCell(s, cell, d).merged)
  {
    var t := s.moved[j0];
    WalkStops(s.moved, s.merged, cell, t.value, d);
    var w := Walk(s.moved, s.merged, cell, t.value, d);
    if w.merged != s.merged {
      MergedOnto(s, d, cell, j0);
    } else if w.target != cell {
      WalkedOnto(s, d, cell, j0);
    }
  }

  /** Only the tile `j0` changes, and it and every mark end on visited cells. */
  lemma SomeFrame(s: SlideState, d: Direction, cell: Cell, i: int, j0: int)
    requires OnGrid(cell) && Rank(d, cell) == i
    requires FindIndex(s.moved, cell) == Some(j0)
    requires forall c :: c in s.merged ==> Visited(d, i, c)
    ensures var s' := SlideCell(s, cell, d);
      && |s'.moved| == |s.moved|
      && (forall j :: 0 <= j < |s.moved| && j != j0 ==> s'.moved[j] == s.moved[j])
      && Visited(d, i + 1, s'.moved[j0].Pos())
      && (forall c :: c in s'.merged ==> Visited(d, i + 1, c))
  {
    var t := s.moved[j0];
    WalkStops(s.moved, s.merged, cell, t.value, d);
    var w := Walk(s.moved, s.merged, cell, t.value, d);
    if w.target != cell {
      AheadVisitedFirst(d, cell, w.target);
    }
  }

  lemma WalkedOnto(s: SlideState, d: Direction, cell: Cell, j0: int)
    requires MergeShape(s.moved, s.merged)
    requires FindIndex(s.moved, cell) == Some(j0)
    requires !s.moved[j0].merging && cell !in s.merged
    requires var w := Walk(s.moved, s.merged, cell, s.moved[j0].value, d);
      w.target != cell && w.merged == s.merged
    ensures MergeShape(SlideCell(s, cell, d).moved, SlideCell(s, cell, d).merged)
  {
    var t := s.moved[j0];
    WalkStops(s.moved, s.merged, cell, t.value, d);
    var w := Walk(s.moved, s.merged, cell, t.value, d);
    if w.target in s.merged {
      MergedCellsOccupied(s.moved, s.merged, w.target);
    }
    MoveKeepsShape(s.moved, s.merged, j0, w.target);
  }

  lemma MergedOnto(s: SlideState, d: Direction, cell: Cell, j0: int)
    requires MergeShape(s.moved, s.merged)
    requires FindIndex(s.moved, cell) == Some(j0)
    requires !s.moved[j0].merging && cell !in s.merged
    requires Walk(s.moved, s.merged, cell, s.moved[j0].value, d).merged != s.merged
    ensures MergeShape(SlideCell(s, cell, d).moved, SlideCell(s, cell, d).merged)
  {
    var t := s.moved[j0];
    WalkStops(s.moved, s.merged, cell, t.value, d);
    var w := Walk(s.moved, s.merged, cell, t.value, d);
    var k0 := FindIndex(s.moved, w.target).value;
    MergeKeepsShape(s.moved, s.merged, j0, w.target, k0);
  }

  lemma SlideCellSome(tiles: seq<Tile>, s: SlideState, d: Direction, i: int, j0: int)
    requires Settled(tiles)
    requires 0 <= i < CellCount && MergeInv(tiles, s, d, i)
    requires OnGrid(TraversalOrder(d)[i]) && Rank(d, TraversalOrder(d)[i]) == i
    requires FindIndex(s.moved, TraversalOrder(d)[i]) == Some(j0)
    ensures MergeInv(tiles, SlideCell(s, TraversalOrder(d)[i], d), d, i + 1)
  {
    var cell := TraversalOrder(d)[i];
    SlideCellTracks(tiles, s, cell, d);
    OnlyStarterAt(tiles, s, d, i, j0);
    SomeShape(s, d, cell, j0);
    SomeFrame(s, d, cell, i, j0);
    VisitStep(tiles, s, SlideCell(s, cell, d), d, i, j0);
    SomeRoom(tiles, s, d, cell, j0);
  }

  /** A move that has merged nothing so far keeps a free cell of the grid in evidence. */
  lemma SomeRoom(tiles: seq<Tile>, s: SlideState, d: Direction, cell: Cell, j0: int)
    requires Settled(tiles) && Tracks(tiles, s, d) && MergeShape(s.moved, s.merged)
    requires s.hasMoved && s.merged == {} ==> |tiles| < CellCount
    requires FindIndex(s.moved, cell) == Some(j0)
    ensures var s' := SlideCell(s, cell, d);
      s'.hasMoved && s'.merged == {} ==> |tiles| < CellCount
  {
    var t := s.moved[j0];
    WalkStops(s.moved, s.merged, cell, t.value, d);
    var w := Walk(s.moved, s.merged, cell, t.value, d);
    if !s.hasMoved && s.merged == {} && w.merged == {} && w.target != cell {
      RoomToMove(tiles, s, d, cell, j0);
    }
  }

  /** A tile can change cell without merging only if the board has a free cell, so a
      board of sixteen tiles can move only through a merge. */
  lemma RoomToMove(tiles: seq<Tile>, s: SlideState, d: Direction, cell: Cell, j0: int)
    requires Settled(tiles) && Tracks(tiles, s, d) && MergeShape(s.moved, s.merged) && s.merged == {}
    requires FindIndex(s.moved, cell) == Some(j0)
    requires var w := Walk(s.moved, s.merged, cell, s.moved[j0].value, d);
      w.target != cell && w.merged == s.merged
    ensures |tiles| < CellCount
  {
    var t := s.moved[j0];
    WalkStops(s.moved, s.merged, cell, t.value, d);
    var w := Walk(s.moved, s.merged, cell, t.value, d);
    forall j | 0 <= j < |s.moved| ensures OnGrid(s.moved[j].Pos()) {
      assert Follows(tiles[j], s.moved[j], d);
    }
    EmptyCount(s.moved);
    EmptyCellsSpec(s.moved);
    assert w.target in EmptyCells(s.moved);
  }

  lemma SlideCellInv(tiles: seq<Tile>, s: SlideState, d: Direction, i: int)
    requires Settled(tiles)
    requires 0 <= i < CellCount && MergeInv(tiles, s, d, i)
    ensures MergeInv(tiles, SlideCell(s, TraversalOrder(d)[i], d), d, i + 1)
  {
    TraversalIsPermutation(d);
    match FindIndex(s.moved, TraversalOrder(d)[i])
    case None => SlideCellNone(tiles, s, d, i);
    case Some(j0) => SlideCellSome(tiles, s, d, i, j0);
  }

  lemma {:induction false} SlideFoldInv(tiles: seq<Tile>, d: Direction, i: int)
    requires Settled(tiles)
    requires 0 <= i <= CellCount
    ensures MergeInv(tiles, SlideFold(Start(tiles), TraversalOrder(d)[..i], d), d, i)
  {
    if i == 0 {
      SlideFoldTracks(tiles, [], d);
    } else {
      SlideFoldInv(tiles, d, i - 1);
      SlideInvNext(tiles, d, i - 1);
    }
  }

  lemma SlideInvNext(tiles: seq<Tile>, d: Direction, i: int)
    requires Settled(tiles)
    requires 0 <= i < CellCount
    requires MergeInv(tiles, SlideFold(Start(tiles), TraversalOrder(d)[..i], d), d, i)
    ensures MergeInv(tiles, SlideFold(Start(tiles), TraversalOrder(d)[..i + 1], d), d, i + 1)
  {
    var cells := TraversalOrder(d);
    var s := SlideFold(Start(tiles), cells[..i], d);
    assert cells[..i + 1][..i] == cells[..i];
    assert SlideFold(Start(tiles), cells[..i + 1], d) == SlideCell(s, cells[i], d);
    SlideCellInv(tiles, s, d, i);
  }

  /** On a settled board the slide has the merge shape: at most one tile merges into any
      cell, every merge pairs two tiles of the same value, all tiles stay on the grid, and
      only a tile that changed cell is flagged merging; and on a full board nothing moves
      without a merge. */
  lemma SlideMergeRules(tiles: seq<Tile>, d: Direction)
    requires Settled(tiles)
    ensures var s := SlideSpec(tiles, d);
      && |s.moved| == |tiles|
      && MergeShape(s.moved, s.merged)
      && (forall j :: 0 <= j < |s.moved| ==> OnGrid(s.moved[j].Pos()))
      && (forall j :: 0 <= j < |s.moved| && s.moved[j].merging ==> s.moved[j].Pos() != tiles[j].Pos())
      && (s.hasMoved && s.merged == {} ==> |tiles| < CellCount)
  {
    SlideFoldInv(tiles, d, CellCount);
    assert TraversalOrder(d)[..CellCount] == TraversalOrder(d);
  }
}
