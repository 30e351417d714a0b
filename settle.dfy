/** The settle phase of a move (the delayed second half of `moveTiles`): every cell that
    received a merge gets one doubled tile, the other tiles stay, the score and the best
    score grow by the doubled values, and a new 2 appears on a random empty cell when
    something moved. */
module Settle {
  import opened Tiles
  import opened Cells
  import opened Slide

  /** What the `forEach` over the slid board threads: the tiles kept so far
      (`afterMerge`), the cells that already produced their doubled tile
      (`mergedValueMap`), the tile counter, the score, the best score and the best score
      saved in the browser's storage. */
  datatype SettleState = SettleState(afterMerge: seq<Tile>, seen: set<Cell>, nextId: nat,
                                     score: int, best: int, store: Option<int>)

  /** The tile a merge produces on cell `c` from two tiles of value `value`. */
  function MergeResult(id: nat, c: Cell, value: TileValue): (t: Tile)
    ensures t.Pos() == c && t.id == id && t.value == 2 * value
    ensures t.isNew && t.mergedResult && !t.merging
  {
    CreateTile(id, c, 2 * value).(mergedResult := true)
  }

  /** One iteration of the `forEach`: the first merging tile on a cell is replaced by the
      doubled tile and adds the doubled value to the score, raising and saving the best
      score when it is beaten; later merging tiles on that cell are dropped; a tile that is
      not merging stays unless its cell received a merge. */
  function SettleTile(st: SettleState, t: Tile, merged: set<Cell>): SettleState {
    var key := t.Pos();
    if t.merging then
      if key in st.seen then st
      else
        var newScore := st.score + 2 * t.value;
        var raised := newScore > st.best;
        SettleState(st.afterMerge + [MergeResult(st.nextId, key, t.value)], st.seen + {key},
                     st.nextId + 1, newScore,
                     if raised then newScore else st.best,
                     if raised then Some(newScore) else st.store)
    else if key in merged then st
    else st.(afterMerge := st.afterMerge + [t])
  }

  /** The `forEach` over a list of slid tiles. */
  function SettleFold(st: SettleState, moved: seq<Tile>, merged: set<Cell>): SettleState
    decreases |moved|
  {
    if |moved| == 0 then st
    else SettleTile(SettleFold(st, moved[..|moved| - 1], merged), moved[|moved| - 1], merged)
  }

  function Collapse(moved: seq<Tile>, merged: set<Cell>, nextId: nat, score: int, best: int,
                    store: Option<int>): SettleState
  {
    SettleFold(SettleState([], {}, nextId, score, best, store), moved, merged)
  }

  /** The cell the new tile goes to: the empty cell at index `pick` (the random index,
      reduced modulo the number of empty cells), provided something moved and some cell
      is empty. */
  function SpawnCell(board: seq<Tile>, hasMoved: bool, pick: nat): (r: Option<Cell>)
    ensures r.Some? ==> OnGrid(r.value) && !Occupied(board, r.value)
    ensures r.None? <==> !hasMoved || |EmptyCells(board)| == 0
  {
    var empties := EmptyCells(board);
    EmptyCellsSpec(board);
    if hasMoved && |empties| > 0 then Some(empties[pick % |empties|]) else None
  }

  /** The board after the new tile, if any, has been added. */
  function Spawn(st: SettleState, hasMoved: bool, pick: nat): SettleState {
    match SpawnCell(st.afterMerge, hasMoved, pick)
    case None => st
    case Some(c) => st.(afterMerge := st.afterMerge + [CreateTile(st.nextId, c, 2)], nextId := st.nextId + 1)
  }

  /** The whole settle phase after a slide. */
  function SettleSpec(s: SlideState, nextId: nat, score: int, best: int, store: Option<int>,
                      pick: nat): SettleState
  {
    Spawn(Collapse(s.moved, s.merged, nextId, score, best, store), s.hasMoved, pick)
  }

  // ---------------------------------------------------------------------------------
  // Score and best score

  function Max(a: int, b: int): int {
    if a < b then b else a
  }

  /** Total value of the tiles of a board that a merge of the current move made (new and
      marked as a merge result). */
  predicate Made(t: Tile) {
    t.isNew && t.mergedResult
  }

  function MadeValue(tiles: seq<Tile>): int
    decreases |tiles|
  {
    if |tiles| == 0 then 0
    else MadeValue(tiles[..|tiles| - 1]) + (if Made(tiles[|tiles| - 1]) then tiles[|tiles| - 1].value else 0)
  }

  lemma {:induction false} MadeValueAppend(tiles: seq<Tile>, t: Tile)
    ensures MadeValue(tiles + [t]) == MadeValue(tiles) + (if Made(t) then t.value else 0)
    ensures MadeValue(tiles) >= 0
    decreases |tiles|
  {
    assert (tiles + [t])[..|tiles|] == tiles;
    if |tiles| > 0 {
      MadeValueAppend(tiles[..|tiles| - 1], tiles[|tiles| - 1]);
      assert tiles[..|tiles| - 1] + [tiles[|tiles| - 1]] == tiles;
    }
  }

  ghost predicate ScoreInv(score: int, best: int, store: Option<int>, st: SettleState) {
    && st.score == score + MadeValue(st.afterMerge)
    && st.best == (if st.score != score then Max(best, st.score) else best)
    && st.store == (if st.best != best then Some(st.best) else store)
  }

  lemma {:induction false} ScoreFold(moved: seq<Tile>, merged: set<Cell>, nextId: nat, score: int,
                                     best: int, store: Option<int>)
    requires forall j :: 0 <= j < |moved| ==> !moved[j].isNew
    ensures ScoreInv(score, best, store, Collapse(moved, merged, nextId, score, best, store))
    decreases |moved|
  {
    var init := SettleState([], {}, nextId, score, best, store);
    if |moved| > 0 {
      var prefix := moved[..|moved| - 1];
      var t := moved[|moved| - 1];
      ScoreFold(prefix, merged, nextId, score, best, store);
      var st := SettleFold(init, prefix, merged);
      MadeValueAppend(st.afterMerge, t);
      if t.merging && t.Pos() !in st.seen {
        MadeValueAppend(st.afterMerge, MergeResult(st.nextId, t.Pos(), t.value));
      }
    }
  }

  /** The score grows by exactly the values of the tiles the merges make (each merge adds
      its doubled value); the best score becomes the larger of itself and the new score
      once the score has grown, and never decreases; the stored best score is rewritten
      exactly when the best score changes, to the new best score. */
  lemma CollapseScore(moved: seq<Tile>, merged: set<Cell>, nextId: nat, score: int, best: int,
                      store: Option<int>)
    requires forall j :: 0 <= j < |moved| ==> !moved[j].isNew
    ensures var st := Collapse(moved, merged, nextId, score, best, store);
      && st.score == score + MadeValue(st.afterMerge)
      && st.score >= score
      && st.best == (if st.score != score then Max(best, st.score) else best)
      && st.best >= best
      && st.store == (if st.best != best then Some(st.best) else store)
  {
    ScoreFold(moved, merged, nextId, score, best, store);
    var st := Collapse(moved, merged, nextId, score, best, store);
    if |st.afterMerge| > 0 {
      MadeValueAppend(st.afterMerge[..|st.afterMerge| - 1], st.afterMerge[|st.afterMerge| - 1]);
    }
  }

  // ---------------------------------------------------------------------------------
  // The board the settle phase builds

  /** The slid board as the slide leaves a settled board: the merge shape, every tile on
      the grid and no longer new, ids fresh, values powers of two. */
  ghost predicate SlidBoard(moved: seq<Tile>, merged: set<Cell>, nextId: nat) {
    && MergeShape(moved, merged)
    && (forall j :: 0 <= j < |moved| ==> OnGrid(moved[j].Pos()) && !moved[j].isNew)
    && FreshIds(moved, nextId)
    && PowerValues(moved)
  }

  /** Cells of merging tiles among the first `k` slid tiles. */
  function MergingCells(moved: seq<Tile>, k: int): set<Cell>
    requires 0 <= k <= |moved|
  {
    if k == 0 then {}
    else MergingCells(moved, k - 1) + (if moved[k - 1].merging then {moved[k - 1].Pos()} else {})
  }

  /** Cells of merge partners (non-merging tiles on a merged cell) among the first `k`. */
  function TargetCells(moved: seq<Tile>, merged: set<Cell>, k: int): set<Cell>
    requires 0 <= k <= |moved|
  {
    if k == 0 then {}
    else
      var t := moved[k - 1];
      TargetCells(moved, merged, k - 1) + (if !t.merging && t.Pos() in merged then {t.Pos()} else {})
  }

  lemma {:induction false} CellsMembers(moved: seq<Tile>, merged: set<Cell>, k: int)
    requires 0 <= k <= |moved|
    ensures forall c :: c in MergingCells(moved, k) <==>
      exists j :: 0 <= j < k && moved[j].merging && moved[j].Pos() == c
    ensures forall c :: c in TargetCells(moved, merged, k) <==>
      exists j :: 0 <= j < k && !moved[j].merging && c in merged && moved[j].Pos() == c
    decreases k
  {
    if k > 0 {
      CellsMembers(moved, merged, k - 1);
    }
  }

  /** `x` is one of the first `k` slid tiles, kept as it is. */
  ghost predicate KeptFrom(moved: seq<Tile>, merged: set<Cell>, k: int, x: Tile) {
    exists j :: 0 <= j < k && j < |moved| && moved[j] == x && !x.merging && x.Pos() !in merged
  }

  /** `x` is the doubled tile made from one of the first `k` slid tiles. */
  ghost predicate MadeFrom(moved: seq<Tile>, k: int, x: Tile) {
    exists j :: 0 <= j < k && j < |moved| && moved[j].merging &&
      x == MergeResult(x.id, moved[j].Pos(), moved[j].value)
  }

  /** The counters after `k` tiles: the cells that produced a doubled tile are those of
      the merging tiles so far, one id was used per such cell, and one tile was dropped per
      partner met so far. */
  ghost predicate CountInv(moved: seq<Tile>, merged: set<Cell>, n0: nat, k: int, st: SettleState) {
    && 0 <= k <= |moved|
    && st.seen == MergingCells(moved, k)
    && st.nextId == n0 + |st.seen|
    && |st.afterMerge| + |TargetCells(moved, merged, k)| == k
  }

  /** Every tile built so far is a kept slid tile or a doubled tile with a fresh id. */
  ghost predicate OriginInv(moved: seq<Tile>, merged: set<Cell>, n0: nat, k: int, st: SettleState) {
    && n0 <= st.nextId
    && forall a :: 0 <= a < |st.afterMerge| ==>
      KeptFrom(moved, merged, k, st.afterMerge[a]) ||
      (MadeFrom(moved, k, st.afterMerge[a]) && n0 <= st.afterMerge[a].id < st.nextId)
  }

  /** The tiles built so far sit on distinct cells and carry distinct ids. */
  predicate UniqueInv(st: SettleState) {
    && DistinctPositions(st.afterMerge)
    && (forall a, b :: 0 <= a < b < |st.afterMerge| ==> st.afterMerge[a].id != st.afterMerge[b].id)
  }

  /** Every tile to keep among the first `k` is there, and every merging tile among them
      has its doubled tile there. */
  ghost predicate ContentInv(moved: seq<Tile>, merged: set<Cell>, k: int, st: SettleState)
    requires 0 <= k <= |moved|
  {
    && (forall j :: 0 <= j < k && !moved[j].merging && moved[j].Pos() !in merged ==> moved[j] in st.afterMerge)
    && (forall j :: 0 <= j < k && moved[j].merging ==> HasResult(st.afterMerge, moved[j]))
  }

  /** The board holds the doubled tile of merging tile `t`. */
  ghost predicate HasResult(board: seq<Tile>, t: Tile) {
    exists a :: 0 <= a < |board| && board[a] == MergeResult(board[a].id, t.Pos(), t.value)
  }

  lemma CountStep(moved: seq<Tile>, merged: set<Cell>, n0: nat, k: int, st: SettleState)
    requires CountInv(moved, merged, n0, k, st) && k < |moved|
    requires MergingDistinct(moved) && OthersDistinct(moved)
    ensures moved[k].merging ==> moved[k].Pos() !in st.seen
    ensures CountInv(moved, merged, n0, k + 1, SettleTile(st, moved[k], merged))
  {
    FirstOnCell(moved, merged, k);
    if moved[k].merging {
      CountMerging(moved, merged, n0, k, st);
    } else {
      CountOther(moved, merged, n0, k, st);
    }
  }

  lemma CountNext(moved: seq<Tile>, merged: set<Cell>, n0: nat, score: int, best: int,
                  store: Option<int>, k: int)
    requires MergingDistinct(moved) && OthersDistinct(moved)
    requires 0 <= k < |moved|
    requires CountInv(moved, merged, n0, k, After(moved, merged, n0, score, best, store, k))
    ensures CountInv(moved, merged, n0, k + 1, After(moved, merged, n0, score, best, store, k + 1))
  {
    CountStep(moved, merged, n0, k, After(moved, merged, n0, score, best, store, k));
  }

  lemma CountMerging(moved: seq<Tile>, merged: set<Cell>, n0: nat, k: int, st: SettleState)
    requires CountInv(moved, merged, n0, k, st) && k < |moved|
    requires moved[k].merging && moved[k].Pos() !in MergingCells(moved, k)
    ensures CountInv(moved, merged, n0, k + 1, SettleTile(st, moved[k], merged))
  {
    var st' := SettleTile(st, moved[k], merged);
    assert st'.seen == MergingCells(moved, k + 1) == st.seen + {moved[k].Pos()};
    assert TargetCells(moved, merged, k + 1) == TargetCells(moved, merged, k);
    assert |st'.afterMerge| == |st.afterMerge| + 1;
  }

  lemma CountOther(moved: seq<Tile>, merged: set<Cell>, n0: nat, k: int, st: SettleState)
    requires CountInv(moved, merged, n0, k, st) && k < |moved|
    requires !moved[k].merging && moved[k].Pos() !in TargetCells(moved, merged, k)
    ensures CountInv(moved, merged, n0, k + 1, SettleTile(st, moved[k], merged))
  {
    var st' := SettleTile(st, moved[k], merged);
    assert st'.seen == MergingCells(moved, k + 1) == st.seen;
    if moved[k].Pos() in merged {
      assert TargetCells(moved, merged, k + 1) == TargetCells(moved, merged, k) + {moved[k].Pos()};
    } else {
      assert TargetCells(moved, merged, k + 1) == TargetCells(moved, merged, k);
    }
  }

  /** Slid tile `k` is the first merging tile, or the first partner, on its cell. */
  lemma FirstOnCell(moved: seq<Tile>, merged: set<Cell>, k: int)
    requires 0 <= k < |moved| && MergingDistinct(moved) && OthersDistinct(moved)
    ensures moved[k].merging ==> moved[k].Pos() !in MergingCells(moved, k)
    ensures !moved[k].merging ==> moved[k].Pos() !in TargetCells(moved, merged, k)
  {
    CellsMembers(moved, merged, k);
    var t := moved[k];
    if t.merging {
      forall j | 0 <= j < k && moved[j].merging ensures moved[j].Pos() != t.Pos() {}
    } else {
      forall j | 0 <= j < k && !moved[j].merging ensures moved[j].Pos() != t.Pos() {}
    }
  }

  lemma OriginStep(moved: seq<Tile>, merged: set<Cell>, n0: nat, k: int, st: SettleState)
    requires OriginInv(moved, merged, n0, k, st) && 0 <= k < |moved|
    ensures OriginInv(moved, merged, n0, k + 1, SettleTile(st, moved[k], merged))
  {
    var st' := SettleTile(st, moved[k], merged);
    forall a | 0 <= a < |st'.afterMerge|
      ensures KeptFrom(moved, merged, k + 1, st'.afterMerge[a]) ||
        (MadeFrom(moved, k + 1, st'.afterMerge[a]) && n0 <= st'.afterMerge[a].id < st'.nextId)
    {
      var y := st'.afterMerge[a];
      if a < |st.afterMerge| {
        assert y == st.afterMerge[a];
        if KeptFrom(moved, merged, k, y) {
          var j :| 0 <= j < k && j < |moved| && moved[j] == y && !y.merging && y.Pos() !in merged;
          assert KeptFrom(moved, merged, k + 1, y);
        } else {
          var j :| 0 <= j < k && j < |moved| && moved[j].merging && y == MergeResult(y.id, moved[j].Pos(), moved[j].value);
          assert MadeFrom(moved, k + 1, y);
        }
      } else if moved[k].merging {
        assert MadeFrom(moved, k + 1, y);
      } else {
        assert KeptFrom(moved, merged, k + 1, y);
      }
    }
  }

  /** A tile built from the first `k` slid tiles is on another cell than slid tile `k`
      would take, and has another id. */
  lemma Apart(moved: seq<Tile>, merged: set<Cell>, n0: nat, k: int, y: Tile)
    requires MergingOnMerged(moved, merged) && MergingDistinct(moved) && OthersDistinct(moved)
    requires FreshIds(moved, n0)
    requires 0 <= k < |moved|
    requires KeptFrom(moved, merged, k, y) || (MadeFrom(moved, k, y) && n0 <= y.id)
    ensures moved[k].merging ==> y.Pos() != moved[k].Pos()
    ensures !moved[k].merging && moved[k].Pos() !in merged ==> y.Pos() != moved[k].Pos() && y.id != moved[k].id
    ensures KeptFrom(moved, merged, k, y) ==> y.id < n0
  {
    if KeptFrom(moved, merged, k, y) {
      var j :| 0 <= j < k && j < |moved| && moved[j] == y && !y.merging && y.Pos() !in merged;
    } else {
      var j :| 0 <= j < k && j < |moved| && moved[j].merging && y == MergeResult(y.id, moved[j].Pos(), moved[j].value);
    }
  }

  lemma UniqueStep(moved: seq<Tile>, merged: set<Cell>, n0: nat, k: int, st: SettleState)
    requires MergingOnMerged(moved, merged) && MergingDistinct(moved) && OthersDistinct(moved)
    requires FreshIds(moved, n0)
    requires 0 <= k < |moved|
    requires OriginInv(moved, merged, n0, k, st) && UniqueInv(st)
    ensures UniqueInv(SettleTile(st, moved[k], merged))
  {
    var t := moved[k];
    var st' := SettleTile(st, t, merged);
    if |st'.afterMerge| != |st.afterMerge| {
      var x := st'.afterMerge[|st.afterMerge|];
      assert st'.afterMerge == st.afterMerge + [x];
      forall a | 0 <= a < |st.afterMerge| ensures st.afterMerge[a].Pos() != x.Pos() && st.afterMerge[a].id != x.id {
        Apart(moved, merged, n0, k, st.afterMerge[a]);
      }
    }
  }

  lemma ContentStep(moved: seq<Tile>, merged: set<Cell>, k: int, st: SettleState)
    requires 0 <= k < |moved| && ContentInv(moved, merged, k, st)
    requires moved[k].merging ==> moved[k].Pos() !in st.seen
    ensures ContentInv(moved, merged, k + 1, SettleTile(st, moved[k], merged))
  {
    var st' := SettleTile(st, moved[k], merged);
    assert forall a :: 0 <= a < |st.afterMerge| ==> st'.afterMerge[a] == st.afterMerge[a];
    forall j | 0 <= j < k + 1 && moved[j].merging ensures HasResult(st'.afterMerge, moved[j]) {
      if j == k {
        assert st'.afterMerge[|st.afterMerge|] == MergeResult(st.nextId, moved[k].Pos(), moved[k].value);
      } else {
        var a :| 0 <= a < |st.afterMerge| &&
          st.afterMerge[a] == MergeResult(st.afterMerge[a].id, moved[j].Pos(), moved[j].value);
        assert st'.afterMerge[a] == st.afterMerge[a];
      }
    }
  }

  /** The state of the `forEach` after the first `k` slid tiles. */
  function After(moved: seq<Tile>, merged: set<Cell>, n0: nat, score: int, best: int,
                 store: Option<int>, k: int): SettleState
    requires 0 <= k <= |moved|
    decreases k
  {
    if k == 0 then SettleState([], {}, n0, score, best, store)
    else SettleTile(After(moved, merged, n0, score, best, store, k - 1), moved[k - 1], merged)
  }

  lemma {:induction false} AfterPrefix(moved: seq<Tile>, merged: set<Cell>, n0: nat, score: int,
                                       best: int, store: Option<int>, k: int)
    requires 0 <= k <= |moved|
    ensures After(moved, merged, n0, score, best, store, k) ==
      SettleFold(SettleState([], {}, n0, score, best, store), moved[..k], merged)
    decreases k
  {
    if k > 0 {
      AfterPrefix(moved, merged, n0, score, best, store, k - 1);
      assert moved[..k][..k - 1] == moved[..k - 1];
    }
  }

  lemma {:induction false} CountFold(moved: seq<Tile>, merged: set<Cell>, n0: nat, score: int,
                                     best: int, store: Option<int>, k: int)
    requires MergingDistinct(moved) && OthersDistinct(moved)
    requires 0 <= k <= |moved|
    ensures CountInv(moved, merged, n0, k, After(moved, merged, n0, score, best, store, k))
    decreases k
  {
    if k > 0 {
      CountFold(moved, merged, n0, score, best, store, k - 1);
      CountNext(moved, merged, n0, score, best, store, k - 1);
    }
  }

  lemma {:induction false} OriginFold(moved: seq<Tile>, merged: set<Cell>, n0: nat, score: int,
                                      best: int, store: Option<int>, k: int)
    requires 0 <= k <= |moved|
    ensures OriginInv(moved, merged, n0, k, After(moved, merged, n0, score, best, store, k))
    decreases k
  {
    if k > 0 {
      OriginFold(moved, merged, n0, score, best, store, k - 1);
      OriginStep(moved, merged, n0, k - 1, After(moved, merged, n0, score, best, store, k - 1));
    }
  }

  lemma {:induction false} UniqueFold(moved: seq<Tile>, merged: set<Cell>, n0: nat, score: int,
                                      best: int, store: Option<int>, k: int)
    requires MergingOnMerged(moved, merged) && MergingDistinct(moved) && OthersDistinct(moved)
    requires FreshIds(moved, n0)
    requires 0 <= k <= |moved|
    ensures UniqueInv(After(moved, merged, n0, score, best, store, k))
    decreases k
  {
    if k > 0 {
      UniqueFold(moved, merged, n0, score, best, store, k - 1);
      OriginFold(moved, merged, n0, score, best, store, k - 1);
      UniqueStep(moved, merged, n0, k - 1, After(moved, merged, n0, score, best, store, k - 1));
    }
  }

  lemma {:induction false} ContentFold(moved: seq<Tile>, merged: set<Cell>, n0: nat, score: int,
                                       best: int, store: Option<int>, k: int)
    requires MergingDistinct(moved) && OthersDistinct(moved)
    requires 0 <= k <= |moved|
    ensures ContentInv(moved, merged, k, After(moved, merged, n0, score, best, store, k))
    decreases k
  {
    if k > 0 {
      ContentFold(moved, merged, n0, score, best, store, k - 1);
      NotSeenYet(moved, merged, n0, score, best, store, k - 1);
      ContentStep(moved, merged, k - 1, After(moved, merged, n0, score, best, store, k - 1));
    }
  }

  /** A merging tile's cell has not produced its doubled tile before the tile is reached. */
  lemma NotSeenYet(moved: seq<Tile>, merged: set<Cell>, n0: nat, score: int, best: int,
                   store: Option<int>, k: int)
    requires MergingDistinct(moved) && OthersDistinct(moved)
    requires 0 <= k < |moved|
    ensures moved[k].merging ==> moved[k].Pos() !in After(moved, merged, n0, score, best, store, k).seen
  {
    CountFold(moved, merged, n0, score, best, store, k);
    CountStep(moved, merged, n0, k, After(moved, merged, n0, score, best, store, k));
  }

  /** On the slid board, the cells of merging tiles and of their partners are both exactly
      the merged cells. */
  lemma ShapeCells(moved: seq<Tile>, merged: set<Cell>)
    requires MergeShape(moved, merged)
    ensures MergingCells(moved, |moved|) == merged
    ensures TargetCells(moved, merged, |moved|) == merged
  {
    CellsMembers(moved, merged, |moved|);
    forall c | c in merged ensures c in TargetCells(moved, merged, |moved|) {
      var j :| 0 <= j < |moved| && moved[j].merging && moved[j].Pos() == c;
      var k :| 0 <= k < |moved| && !moved[k].merging &&
        moved[k].Pos() == moved[j].Pos() && moved[k].value == moved[j].value;
    }
  }

  lemma AfterAll(moved: seq<Tile>, merged: set<Cell>, n0: nat, score: int, best: int, store: Option<int>)
    ensures After(moved, merged, n0, score, best, store, |moved|) == Collapse(moved, merged, n0, score, best, store)
  {
    AfterPrefix(moved, merged, n0, score, best, store, |moved|);
    assert moved[..|moved|] == moved;
  }

  /** The tiles the `forEach` builds all lie on the grid, one per cell, none merging, with
      fresh ids and power-of-two values; each is a slid tile kept as it is (not merging, on
      a cell without a merge) or a new doubled tile on a merged cell. */
  lemma CollapseSettled(moved: seq<Tile>, merged: set<Cell>, n0: nat, score: int, best: int,
                        store: Option<int>)
    requires SlidBoard(moved, merged, n0)
    ensures var st := Collapse(moved, merged, n0, score, best, store);
      && Settled(st.afterMerge) && FreshIds(st.afterMerge, st.nextId) && PowerValues(st.afterMerge)
      && (forall t :: t in st.afterMerge ==>
            (t in moved && !t.merging && t.Pos() !in merged) ||
            (t.isNew && t.mergedResult && t.Pos() in merged))
  {
    OriginFold(moved, merged, n0, score, best, store, |moved|);
    UniqueFold(moved, merged, n0, score, best, store, |moved|);
    AfterAll(moved, merged, n0, score, best, store);
    var st := Collapse(moved, merged, n0, score, best, store);
    forall a | 0 <= a < |st.afterMerge|
      ensures OnGrid(st.afterMerge[a].Pos()) && !st.afterMerge[a].merging
      ensures st.afterMerge[a].id < st.nextId && PowerOfTwo(st.afterMerge[a].value)
      ensures (st.afterMerge[a] in moved && !st.afterMerge[a].merging && st.afterMerge[a].Pos() !in merged) ||
        (st.afterMerge[a].isNew && st.afterMerge[a].mergedResult && st.afterMerge[a].Pos() in merged)
    {
      var y := st.afterMerge[a];
      if KeptFrom(moved, merged, |moved|, y) {
        var j :| 0 <= j < |moved| && moved[j] == y && !y.merging && y.Pos() !in merged;
      } else {
        var j :| 0 <= j < |moved| && moved[j].merging && y == MergeResult(y.id, moved[j].Pos(), moved[j].value);
        assert PowerOfTwo(moved[j].value);
        assert y.value / 2 == moved[j].value;
      }
    }
  }

  /** The `forEach` drops one tile per merged cell and uses one id per merged cell. */
  lemma CollapseCount(moved: seq<Tile>, merged: set<Cell>, n0: nat, score: int, best: int,
                      store: Option<int>)
    requires MergeShape(moved, merged)
    ensures var st := Collapse(moved, merged, n0, score, best, store);
      && |st.afterMerge| == |moved| - |merged|
      && st.nextId == n0 + |merged|
  {
    CountFold(moved, merged, n0, score, best, store, |moved|);
    AfterAll(moved, merged, n0, score, best, store);
    ShapeCells(moved, merged);
  }

  /** Cell `c` of `board` holds a tile made by a merge whose value is the sum of a merging
      slid tile on `c` and of the non-merging partner it landed on there. */
  ghost predicate DoubledAt(board: seq<Tile>, moved: seq<Tile>, c: Cell) {
    exists a, j, k ::
      && 0 <= a < |board| && 0 <= j < |moved| && 0 <= k < |moved|
      && moved[j].merging && !moved[k].merging
      && moved[j].Pos() == c && moved[k].Pos() == c
      && board[a].Pos() == c && board[a].mergedResult
      && board[a].value == moved[j].value + moved[k].value
  }

  lemma MergedCellDoubled(moved: seq<Tile>, merged: set<Cell>, board: seq<Tile>, c: Cell)
    requires MergeShape(moved, merged) && c in merged
    requires forall j :: 0 <= j < |moved| && moved[j].merging ==> HasResult(board, moved[j])
    ensures DoubledAt(board, moved, c)
  {
    var j :| 0 <= j < |moved| && moved[j].merging && moved[j].Pos() == c;
    var k :| 0 <= k < |moved| && !moved[k].merging &&
      moved[k].Pos() == moved[j].Pos() && moved[k].value == moved[j].value;
    assert HasResult(board, moved[j]);
    var a :| 0 <= a < |board| && board[a] == MergeResult(board[a].id, moved[j].Pos(), moved[j].value);
    assert board[a].value == moved[j].value + moved[k].value;
  }

  /** Every slid tile that is not merging and whose cell received no merge is kept, and
      every merged cell holds a doubled tile whose value is the sum of the merging tile and
      of the partner it landed on. */
  lemma CollapseContent(moved: seq<Tile>, merged: set<Cell>, n0: nat, score: int, best: int,
                        store: Option<int>)
    requires MergeShape(moved, merged)
    ensures var st := Collapse(moved, merged, n0, score, best, store);
      && (forall t :: t in moved && !t.merging && t.Pos() !in merged ==> t in st.afterMerge)
      && (forall c :: c in merged ==> DoubledAt(st.afterMerge, moved, c))
  {
    ContentFold(moved, merged, n0, score, best, store, |moved|);
    AfterAll(moved, merged, n0, score, best, store);
    var st := Collapse(moved, merged, n0, score, best, store);
    forall t | t in moved && !t.merging && t.Pos() !in merged ensures t in st.afterMerge {
      var j :| 0 <= j < |moved| && moved[j] == t;
    }
    forall c | c in merged ensures DoubledAt(st.afterMerge, moved, c) {
      MergedCellDoubled(moved, merged, st.afterMerge, c);
    }
  }
}
