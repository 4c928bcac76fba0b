/**
 * SokochanEngine: loads a level into a new grid, moves the keeper, counts
 * moves and pushes, keeps the capped history of moves and undoes them, and
 * tells whether every crate is on a diamond.
 */
module Engine {
  import opened Wrappers
  import opened Points
  import opened Directions
  import opened GridObjects
  import opened MapLoading
  import opened History
  import L = Letters
  import B = Boards
  import G = Grid
  import D = LevelDecoding

  /**
   * What undo does to the board for the history entry e: the keeper steps
   * back opposite to e's direction and, when e records a push, the crate
   * that was next to the keeper in e's direction follows it.
   */
  function UndoBoard(b: B.Board, k: nat, e: HistoryElement): (r: B.Board)
    requires B.Consistent(b) && B.Populated(b) && k < |b.objects|
    requires e.pushedCrate ==> B.GetCrateInDirection(b, k, e.direction).Some?
    ensures B.Consistent(r) && B.Populated(r) && |r.objects| == |b.objects|
    ensures forall i :: 0 <= i < |b.objects| ==> r.objects[i].kind == b.objects[i].kind
  {
    var back := Opposite(e.direction);
    B.MovePreservesConsistent(b, k, back);
    B.MoveKeepsShape(b, k, back);
    var stepped := B.Move(b, k, back).1;
    if e.pushedCrate then
      var c := B.GetCrateInDirection(b, k, e.direction).value;
      B.MovePreservesConsistent(stepped, c, back);
      B.MoveKeepsShape(stepped, c, back);
      B.Move(stepped, c, back).1
    else stepped
  }

  /**
   * Undo right after a move that movePlayer records (result 0 or 1) finds
   * the pushed crate where it expects it and restores the board exactly:
   * every position and every cell.
   */
  lemma {:induction false} UndoRestores(b: B.Board, k: nat, d: Direction)
    requires B.Consistent(b) && B.Populated(b) && k < |b.objects|
    requires B.MovePushing(b, k, d).0 in {0, 1}
    ensures var (status, after) := B.MovePushing(b, k, d);
      var e := HistoryElement(d, status == 1);
      && B.Consistent(after) && B.Populated(after) && k < |after.objects|
      && (e.pushedCrate ==> B.GetCrateInDirection(after, k, d).Some?)
      && UndoBoard(after, k, e) == b
  {
    B.MovePushingPreservesConsistent(b, k, d);
    B.ConsistentReadable(b, k);
    if B.GetCrateInDirection(b, k, d).None? {
      B.MovePushingWithoutCrate(b, k, d);
      B.MoveThenBack(b, k, d);
    } else {
      UndoRestoresPush(b, k, d);
    }
  }

  /** UndoRestores when a crate sits next to the keeper in direction d. */
  lemma {:induction false} UndoRestoresPush(b: B.Board, k: nat, d: Direction)
    requires B.Consistent(b) && B.Populated(b) && k < |b.objects|
    requires B.GetCrateInDirection(b, k, d).Some? && B.MovePushing(b, k, d).0 in {0, 1}
    ensures var after := B.MovePushing(b, k, d).1;
      && B.Consistent(after) && B.Populated(after) && k < |after.objects|
      && B.MovePushing(b, k, d).0 == 1
      && B.GetCrateInDirection(after, k, d).Some?
      && UndoBoard(after, k, HistoryElement(d, true)) == b
  {
    var c := B.GetCrateInDirection(b, k, d).value;
    PushedCrateAhead(b, k, d);
    var pushed := B.Move(b, c, d).1;
    B.MoveThenBack(b, c, d);
    B.MoveThenBack(pushed, k, d);
  }

  /**
   * After a push that reports 1, the keeper and then the crate both moved,
   * and the crate is again the one next to the keeper in direction d.
   */
  lemma {:induction false} PushedCrateAhead(b: B.Board, k: nat, d: Direction)
    requires B.Consistent(b) && B.Populated(b) && k < |b.objects|
    requires B.GetCrateInDirection(b, k, d).Some? && B.MovePushing(b, k, d).0 in {0, 1}
    ensures var c := B.GetCrateInDirection(b, k, d).value;
      var pushed := B.Move(b, c, d).1;
      var after := B.MovePushing(b, k, d).1;
      && B.MovePushing(b, k, d).0 == 1
      && B.Holds(b, b.objects[c].position, c) && b.tiles[b.objects[c].position].value.kind != Wall
      && B.CanMove(b, c, d) && B.Consistent(pushed) && k < |pushed.objects|
      && B.Holds(pushed, pushed.objects[k].position, k) && pushed.tiles[pushed.objects[k].position].value.kind != Wall
      && B.CanMove(pushed, k, d) && after == B.Move(pushed, k, d).1
      && B.Consistent(after) && B.Populated(after) && k < |after.objects|
      && B.GetCrateInDirection(after, k, d) == Some(c)
  {
    var c := B.GetCrateInDirection(b, k, d).value;
    B.MovePushingWithCrate(b, k, d);
    B.PushIsTwoMoves(b, k, d);
    B.PushFrame(b, k, d);
    B.MovePushingPreservesConsistent(b, k, d);
    B.ConsistentReadable(b, c);
    B.MovePreservesConsistent(b, c, d);
    B.MoveKeepsShape(b, c, d);
    B.ConsistentReadable(B.Move(b, c, d).1, k);
  }

  /**
   * The body of loadLevel for an existing level: a new grid of the level's
   * size, populated with tiles, then every character the MapIterator
   * returns, lowercased, decoded at its position.
   */
  method BuildLevel(level: Level) returns (g: G.SokochanGrid, k: Option<nat>, found: seq<nat>)
    requires Covered(level)
    ensures fresh(g) && fresh(g.cells) && Playable(g, k, found)
    ensures D.LevelDecoded(level, D.Decoded(g.board, k, found))
  {
    var X, Y := GetX(level), GetY(level);
    g := new G.SokochanGrid(X, Y);
    g.PopulateWithTiles();
    found := [];
    k := None;
    var it := Start;
    while MapHasNext(X, Y, it)
      invariant fresh(g) && fresh(g.cells) && g.Valid()
      invariant D.Sized(level, g.board) && Cursor(X, Y, it)
      invariant D.DecodeFrom(level, D.Decoded(g.board, k, found), it) == D.DecodeLevel(level)
      decreases Y - it.y, X - it.x
    {
      MapIteratorIsGridIterator(X, Y, it);
      GridSuccessor(X, Y, it);
      ghost var before := D.Decoded(g.board, k, found);
      it := MapNext(X, it);
      var c := L.ToLower(level.content[it.y][it.x]);
      if c == 'w' {
        g.NewTile(Wall, it);
      } else if c == 'c' {
        var id := g.NewMovable(Crate, it);
        found := found + [id];
      } else if c == 's' {
        var id := g.NewMovable(Keeper, it);
        k := Some(id);
      } else if c == 'd' {
        g.NewTile(Diamond, it);
      }
      assert D.Decoded(g.board, k, found) == D.DecodeCell(before, level.content[it.y][it.x], it);
    }
    D.DecodeLevelCorrect(level);
  }

  /**
   * The grid part of undo for entry e: the keeper k moves opposite to e's
   * direction, after looking up the crate next to it in that direction when
   * e records a push; then that crate moves the same way.
   */
  method StepBack(g: G.SokochanGrid, keeper: Option<nat>, e: HistoryElement, ghost crates: seq<nat>)
    requires Playable(g, keeper, crates) && keeper.Some?
    requires e.pushedCrate ==> B.GetCrateInDirection(g.board, keeper.value, e.direction).Some?
    modifies g, g.cells
    ensures Playable(g, keeper, crates) && g.board == UndoBoard(old(g.board), keeper.value, e)
  {
    var k := keeper.value;
    var back := Opposite(e.direction);
    B.ConsistentReadable(g.board, k);
    B.MoveKeepsShape(g.board, k, back);
    if e.pushedCrate {
      var crate := g.GetCrateInDirection(k, e.direction);
      Shift(g, keeper, k, back, crates);
      Shift(g, keeper, crate.value, back, crates);
    } else {
      Shift(g, keeper, k, back, crates);
    }
  }

  /** The grid's move of object i in direction d, which keeps the level playable. */
  method Shift(g: G.SokochanGrid, keeper: Option<nat>, i: nat, d: Direction, ghost crates: seq<nat>)
    requires Playable(g, keeper, crates) && i < |g.objects|
    modifies g, g.cells
    ensures Playable(g, keeper, crates) && g.board == B.Move(old(g.board), i, d).1
  {
    B.MovePreservesConsistent(g.board, i, d);
    B.MoveKeepsShape(g.board, i, d);
    D.MoveKeepsCrateIds(g.board, i, d);
    var _ := g.Move(i, d);
  }

  /**
   * The grid part of movePlayer: the keeper k's movePushing in direction d,
   * which keeps the grid consistent and the crates list as it was.
   */
  method Push(g: G.SokochanGrid, keeper: Option<nat>, d: Direction, ghost crates: seq<nat>) returns (status: int)
    requires Playable(g, keeper, crates) && keeper.Some?
    modifies g, g.cells
    ensures Playable(g, keeper, crates) && (status, g.board) == B.MovePushing(old(g.board), keeper.value, d)
  {
    var k := keeper.value;
    B.MovePushingPreservesConsistent(g.board, k, d);
    B.MovePushingKeepsKinds(g.board, k, d);
    D.MovePushingKeepsCrateIds(g.board, k, d);
    status := g.MovePushing(k, d);
  }

  /**
   * A loaded level: the grid is consistent and populated, crates lists its
   * crate objects and the keeper, if any, is one of its keeper objects.
   */
  ghost predicate Playable(g: G.SokochanGrid, keeper: Option<nat>, crates: seq<nat>)
    reads g, g.cells
  {
    && g.Valid() && B.Populated(g.board) && B.Consistent(g.board)
    && crates == D.CrateIds(g.objects)
    && (keeper.Some? ==> keeper.value < |g.objects| && g.objects[keeper.value].kind == Keeper)
  }

  class SokochanEngine {
    /** The grid of the current level; null until a level has been loaded. */
    var grid: G.SokochanGrid?
    /** The keeper among the grid's objects; None when the level has no keeper. */
    var keeper: Option<nat>
    /** The crates among the grid's objects, in row-major order of the level. */
    var crates: seq<nat>
    var movesCount: int
    var pushesCount: int
    var levels: seq<Level>
    var levelIndex: int
    var history: HistoryStack
    var mapName: Option<string>

    ghost function Repr(): set<object>
      reads this
    {
      {this, history} + (if grid != null then {grid as object, grid.cells} else {})
    }

    ghost predicate Valid()
      reads Repr()
    {
      && (grid != null ==> Playable(grid, keeper, crates))
      && (grid == null ==> crates == [] && keeper.None?)
      && |history.elements| <= MaxSize + 2
      && |history.elements| <= movesCount
      && pushesCount >= 0
      && (history.elements != [] ==> grid != null && keeper.Some?)
    }

    /**
     * loadGame over the lines of a level file: the levels and the map name
     * the loader finds, then loadLevel(0).
     */
    constructor (lines: seq<string>)
      requires var ls := Parse(lines).levels; |ls| > 0 ==> Covered(ls[0])
      ensures Valid()
      ensures levels == Parse(lines).levels && mapName == Parse(lines).name
      ensures levelIndex == 0 && movesCount == 0 && pushesCount == 0 && history.elements == []
      ensures |levels| == 0 ==> grid == null
      ensures |levels| > 0 ==> grid != null && D.LevelDecoded(levels[0], D.Decoded(grid.board, keeper, crates))
    {
      var loader := new MapLoader(lines);
      levels := loader.levels;
      mapName := loader.name;
      grid := null;
      keeper := None;
      crates := [];
      movesCount := 0;
      pushesCount := 0;
      levelIndex := 0;
      history := new HistoryStack();
      new;
      LoadLevel(0);
    }

    /**
     * loadLevel: the level index, the move count and the history are reset
     * first; an index out of range then leaves everything else as it was;
     * otherwise the level is decoded into a new grid.
     */
    method LoadLevel(index: int)
      requires Valid()
      requires 0 <= index < |levels| ==> Covered(levels[index])
      modifies this
      ensures Valid() && fresh(history)
      ensures levelIndex == index && movesCount == 0 && history.elements == []
      ensures pushesCount == old(pushesCount) && levels == old(levels) && mapName == old(mapName)
      ensures !(0 <= index < |levels|) ==> grid == old(grid) && keeper == old(keeper) && crates == old(crates)
      ensures 0 <= index < |levels| ==>
        grid != null && fresh(grid) && D.LevelDecoded(levels[index], D.Decoded(grid.board, keeper, crates))
    {
      levelIndex := index;
      movesCount := 0;
      history := new HistoryStack();
      if !(0 <= index < |levels|) {
        return;
      }
      var g, k, found := BuildLevel(levels[index]);
      grid, keeper, crates := g, k, found;
    }

    /**
     * movePlayer: result 1 counts a push and a move and records a push; 0
     * counts a move and records it; -1, 2 and 3 count and record nothing and
     * report false, although for 2 and 3 the crate and the keeper did move.
     */
    method MovePlayer(d: Direction) returns (moved: bool)
      requires Valid() && grid != null && keeper.Some?
      modifies Repr()
      ensures Valid() && Repr() == old(Repr())
      ensures grid == old(grid) && keeper == old(keeper) && crates == old(crates) && history == old(history)
      ensures levels == old(levels) && levelIndex == old(levelIndex) && mapName == old(mapName)
      ensures var (status, after) := B.MovePushing(old(grid.board), keeper.value, d);
        && grid.board == after
        && (moved <==> status == 0 || status == 1)
        && pushesCount == old(pushesCount) + (if status == 1 then 1 else 0)
        && movesCount == old(movesCount) + (if moved then 1 else 0)
        && history.elements == if moved then Pushed(old(history.elements), HistoryElement(d, status == 1)) else old(history.elements)
    {
      var status := Push(grid, keeper, d, crates);
      moved := Record(d, status);
    }

    /** The bookkeeping of movePlayer once movePushing has returned status. */
    method Record(d: Direction, status: int) returns (moved: bool)
      requires Valid() && grid != null && keeper.Some?
      modifies this, history
      ensures Valid() && Repr() == old(Repr())
      ensures grid == old(grid) && keeper == old(keeper) && crates == old(crates) && history == old(history)
      ensures levels == old(levels) && levelIndex == old(levelIndex) && mapName == old(mapName)
      ensures moved <==> status == 0 || status == 1
      ensures pushesCount == old(pushesCount) + (if status == 1 then 1 else 0)
      ensures movesCount == old(movesCount) + (if moved then 1 else 0)
      ensures history.elements == if moved then Pushed(old(history.elements), HistoryElement(d, status == 1)) else old(history.elements)
    {
      var pushed := status == 1;
      moved := status == 1 || status == 0;
      if pushed {
        pushesCount := pushesCount + 1;
      }
      if moved {
        movesCount := movesCount + 1;
        history.Push(HistoryElement(d, pushed));
      }
    }

    /**
     * undo: nothing on an empty history; otherwise the newest entry is
     * popped, the board is changed as UndoBoard says, and only the move
     * count goes down (pushesCount is not decremented).
     */
    method Undo()
      requires Valid()
      requires history.elements != [] && history.elements[|history.elements| - 1].pushedCrate ==>
        B.GetCrateInDirection(grid.board, keeper.value, history.elements[|history.elements| - 1].direction).Some?
      modifies Repr()
      ensures Valid() && Repr() == old(Repr())
      ensures grid == old(grid) && keeper == old(keeper) && crates == old(crates) && history == old(history)
      ensures levels == old(levels) && levelIndex == old(levelIndex) && mapName == old(mapName)
      ensures pushesCount == old(pushesCount)
      ensures old(history.elements) == [] ==>
        history.elements == [] && movesCount == old(movesCount) && (grid != null ==> grid.board == old(grid.board))
      ensures old(history.elements) != [] ==>
        var top := old(history.elements)[|old(history.elements)| - 1];
        && history.elements + [top] == old(history.elements)
        && movesCount == old(movesCount) - 1
        && grid.board == UndoBoard(old(grid.board), keeper.value, top)
    {
      if history.IsEmpty() {
        return;
      }
      Revert();
    }

    /** The body of undo for a non-empty history. */
    method Revert()
      requires Valid() && history.elements != []
      requires var top := history.elements[|history.elements| - 1];
        top.pushedCrate ==> B.GetCrateInDirection(grid.board, keeper.value, top.direction).Some?
      modifies Repr()
      ensures Valid() && Repr() == old(Repr())
      ensures grid == old(grid) && keeper == old(keeper) && crates == old(crates) && history == old(history)
      ensures levels == old(levels) && levelIndex == old(levelIndex) && mapName == old(mapName)
      ensures pushesCount == old(pushesCount)
      ensures var top := old(history.elements)[|old(history.elements)| - 1];
        && history.elements + [top] == old(history.elements)
        && movesCount == old(movesCount) - 1
        && grid.board == UndoBoard(old(grid.board), keeper.value, top)
    {
      var pop := Forget();
      StepBack(grid, keeper, pop, crates);
    }

    /** The bookkeeping of undo: the newest entry is popped and one move uncounted. */
    method Forget() returns (e: HistoryElement)
      requires Valid() && history.elements != []
      modifies this, history
      ensures Valid() && Repr() == old(Repr())
      ensures grid == old(grid) && keeper == old(keeper) && crates == old(crates) && history == old(history)
      ensures levels == old(levels) && levelIndex == old(levelIndex) && mapName == old(mapName)
      ensures pushesCount == old(pushesCount)
      ensures history.elements + [e] == old(history.elements) && movesCount == old(movesCount) - 1
    {
      e := history.Pop();
      movesCount := movesCount - 1;
    }

    /** isComplete: every crate is on a diamond (true when there are none). */
    method IsComplete() returns (r: bool)
      requires Valid() && grid != null
      ensures r <==> forall j :: 0 <= j < |crates| ==> B.IsOnDiamond(grid.board, crates[j])
      ensures r <==> forall i :: 0 <= i < |grid.objects| && grid.objects[i].kind == Crate ==> B.IsOnDiamond(grid.board, i)
    {
      var j := 0;
      while j < |crates|
        invariant 0 <= j <= |crates|
        invariant forall i :: 0 <= i < j ==> B.IsOnDiamond(grid.board, crates[i])
      {
        if !grid.IsOnDiamond(crates[j]) {
          return false;
        }
        j := j + 1;
      }
      return true;
    }
  }
}
