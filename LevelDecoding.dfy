/**
 * What SokochanEngine.loadLevel builds from a level, as a function: the grid
 * is populated with floor tiles, then each character the MapIterator returns
 * is lowercased and decoded at its position ('w' a Wall, 'c' a Crate, 's'
 * the keeper, 'd' a Diamond, anything else nothing).
 */
module LevelDecoding {
  import opened Wrappers
  import opened Points
  import opened GridObjects
  import opened Directions
  import opened MapLoading
  import L = Letters
  import B = Boards

  /** The crates array: the indices of the crate objects, in creation order. */
  function CrateIds(objs: seq<Movable>): (r: seq<nat>)
    ensures forall j :: 0 <= j < |r| ==> r[j] < |objs| && objs[r[j]].kind == Crate
    ensures forall i :: 0 <= i < |objs| && objs[i].kind == Crate ==> i in r
    ensures forall j, k :: 0 <= j < k < |r| ==> r[j] < r[k]
  {
    if objs == [] then []
    else
      var init := objs[..|objs| - 1];
      CrateIds(init) + (if objs[|objs| - 1].kind == Crate then [|objs| - 1] else [])
  }

  /** Registering one more object extends the crate list by it exactly when it is a crate. */
  lemma CrateIdsAppend(objs: seq<Movable>, m: Movable)
    ensures CrateIds(objs + [m]) == CrateIds(objs) + (if m.kind == Crate then [|objs|] else [])
  {
    assert (objs + [m])[..|objs|] == objs;
  }

  /** The crate list depends only on the kinds of the objects. */
  lemma {:induction false} CrateIdsKinds(a: seq<Movable>, b: seq<Movable>)
    requires |a| == |b| && forall i :: 0 <= i < |a| ==> a[i].kind == b[i].kind
    ensures CrateIds(a) == CrateIds(b)
  {
    if a != [] {
      CrateIdsKinds(a[..|a| - 1], b[..|b| - 1]);
    }
  }

  /** A move changes no object's kind, so the crates list stays as it is. */
  lemma MoveKeepsCrateIds(b: B.Board, id: nat, d: Direction)
    requires id < |b.objects| && B.Readable(b, b.objects[id].position)
    ensures CrateIds(B.Move(b, id, d).1.objects) == CrateIds(b.objects)
  {
    B.MoveKeepsShape(b, id, d);
    CrateIdsKinds(b.objects, B.Move(b, id, d).1.objects);
  }

  /** Neither does movePushing. */
  lemma MovePushingKeepsCrateIds(b: B.Board, k: nat, d: Direction)
    requires k < |b.objects| && B.Consistent(b) && B.Populated(b)
    ensures CrateIds(B.MovePushing(b, k, d).1.objects) == CrateIds(b.objects)
  {
    B.MovePushingPreservesConsistent(b, k, d);
    B.MovePushingKeepsKinds(b, k, d);
    CrateIdsKinds(b.objects, B.MovePushing(b, k, d).1.objects);
  }

  /** The tile kind a level character gives. */
  function TileFor(c: char): (k: TileKind)
    ensures k == Wall <==> L.ToLower(c) == 'w'
    ensures k == Diamond <==> L.ToLower(c) == 'd'
  {
    var l := L.ToLower(c);
    if l == 'w' then Wall else if l == 'd' then Diamond else Floor
  }

  /** The engine's switch agrees with the code table: the cases are the codes of WALL, CRATE, WAREHOUSE_KEEPER and DIAMOND. */
  lemma SwitchUsesLetterCodes(c: char)
    ensures L.ToLower(c) == 'w' <==> L.ValueOf(c) == Some(L.Wall)
    ensures L.ToLower(c) == 'c' <==> L.ValueOf(c) == Some(L.Crate)
    ensures L.ToLower(c) == 's' <==> L.ValueOf(c) == Some(L.WarehouseKeeper)
    ensures L.ToLower(c) == 'd' <==> L.ValueOf(c) == Some(L.Diamond)
  {
  }

  /** The grid being built, with the keeper and the crates found so far. */
  datatype Decoded = Decoded(board: B.Board, keeper: Option<nat>, crates: seq<nat>)

  /** One pass of loadLevel's loop: the character c read at position p. */
  function DecodeCell(st: Decoded, c: char, p: Pos): (r: Decoded)
    requires B.InBounds(st.board, p) && st.board.tiles[p].Some?
    ensures r.board.width == st.board.width && r.board.height == st.board.height
    ensures B.Populated(st.board) ==> B.Populated(r.board)
    ensures |r.crates| == |st.crates| + (if L.ToLower(c) == 'c' then 1 else 0)
  {
    match L.ToLower(c)
    case 'w' => st.(board := B.PlaceTile(st.board, Wall, p))
    case 'c' =>
      var (id, b) := B.NewMovable(st.board, Crate, p);
      Decoded(b, st.keeper, st.crates + [id])
    case 's' =>
      var (id, b) := B.NewMovable(st.board, Keeper, p);
      Decoded(b, Some(id), st.crates)
    case 'd' => st.(board := B.PlaceTile(st.board, Diamond, p))
    case _ => st
  }

  /** The board has the level's size and a tile in every cell. */
  ghost predicate Sized(lv: Level, b: B.Board)
    requires Covered(lv)
  {
    b.width == GetX(lv) && b.height == GetY(lv) && B.Populated(b)
  }

  /** The rest of the loop from cursor it. */
  function DecodeFrom(lv: Level, st: Decoded, it: Pos): Decoded
    requires Covered(lv) && Sized(lv, st.board) && Cursor(GetX(lv), GetY(lv), it)
    decreases GetY(lv) - it.y, GetX(lv) - it.x
  {
    if !MapHasNext(GetX(lv), GetY(lv), it) then st
    else
      MapIteratorIsGridIterator(GetX(lv), GetY(lv), it);
      GridSuccessor(GetX(lv), GetY(lv), it);
      var n := MapNext(GetX(lv), it);
      DecodeFrom(lv, DecodeCell(st, lv.content[n.y][n.x], n), n)
  }

  /** A new grid of the level's size, populated with floor tiles. */
  function Initial(lv: Level): (st: Decoded)
    requires Covered(lv)
    ensures Sized(lv, st.board)
  {
    Decoded(B.PopulateWithTiles(B.EmptyBoard(GetX(lv), GetY(lv))), None, [])
  }

  /** The grid, keeper and crates loadLevel builds for a level. */
  function DecodeLevel(lv: Level): Decoded
    requires Covered(lv)
  {
    DecodeFrom(lv, Initial(lv), Start)
  }

  // ---------------------------------------------------------------------------
  // What decoding produces

  /** The character at cell p of the level. */
  function CharAt(lv: Level, p: Pos): char
    requires Covered(lv) && InGrid(GetX(lv), GetY(lv), p)
  {
    lv.content[p.y][p.x]
  }

  predicate IsKeeperChar(c: char)
  {
    L.ToLower(c) == 's'
  }

  /** Cell p of board b is what character c gives: the tile kind, and a crate or the keeper on it. */
  ghost predicate CellDecoded(b: B.Board, p: Pos, c: char)
    requires p in b.tiles && b.tiles[p].Some?
  {
    var t := b.tiles[p].value;
    var l := L.ToLower(c);
    && t.kind == TileFor(c)
    && (t.placed.Some? <==> l == 'c' || l == 's')
    && (t.placed.Some? ==> b.objects[t.placed.value].kind == (if l == 'c' then Crate else Keeper))
  }

  /** Objects were created in row-major order of their positions. */
  ghost predicate InCreationOrder(objs: seq<Movable>)
  {
    forall i, j :: 0 <= i < j < |objs| ==> Before(objs[i].position, objs[j].position)
  }

  /** The loop invariant of loadLevel: every cell up to the cursor is decoded, every later one is still an empty floor. */
  ghost predicate DecodedUpTo(lv: Level, st: Decoded, it: Pos)
    requires Covered(lv)
  {
    var X, Y, b := GetX(lv), GetY(lv), st.board;
    && Sized(lv, b) && B.Consistent(b) && Cursor(X, Y, it)
    && st.crates == CrateIds(b.objects)
    && InCreationOrder(b.objects)
    && (forall i :: 0 <= i < |b.objects| ==> !Before(it, b.objects[i].position))
    && (forall q :: InGrid(X, Y, q) && Before(it, q) ==> b.tiles[q] == Some(Tile(Floor, None)))
    && (forall q :: InGrid(X, Y, q) && !Before(it, q) ==> CellDecoded(b, q, CharAt(lv, q)))
    && KeeperIsLast(lv, st, it)
  }

  /** The keeper is the object on the last 's' cell up to the cursor; none when there is no such cell. */
  ghost predicate KeeperIsLast(lv: Level, st: Decoded, it: Pos)
    requires Covered(lv)
  {
    var X, Y, b := GetX(lv), GetY(lv), st.board;
    && (st.keeper.None? ==> forall q :: InGrid(X, Y, q) && !Before(it, q) ==> !IsKeeperChar(CharAt(lv, q)))
    && (st.keeper.Some? ==>
          && st.keeper.value < |b.objects| && b.objects[st.keeper.value].kind == Keeper
          && var kp := b.objects[st.keeper.value].position;
          && InGrid(X, Y, kp) && !Before(it, kp) && IsKeeperChar(CharAt(lv, kp))
          && forall q :: InGrid(X, Y, q) && !Before(it, q) && Before(kp, q) ==> !IsKeeperChar(CharAt(lv, q)))
  }

  /** Row-major order is total: a position not after the cursor is the cursor or before it. */
  lemma NotBeforeIsAtOrBefore(it: Pos, p: Pos, n: Pos)
    requires !Before(it, p) && Before(it, n)
    ensures Before(p, n)
  {
  }

  /** What one decoded character changes: only cell n, and the objects grow by at most the one placed there. */
  lemma {:induction false} DecodeCellEffect(st: Decoded, c: char, n: Pos)
    requires B.InBounds(st.board, n) && st.board.tiles[n] == Some(Tile(Floor, None))
    ensures var r := DecodeCell(st, c, n);
      && (forall q :: q != n && q in st.board.tiles ==> q in r.board.tiles && r.board.tiles[q] == st.board.tiles[q])
      && n in r.board.tiles && r.board.tiles[n].Some?
      && r.board.tiles[n].value.kind == TileFor(c)
      && (L.ToLower(c) == 'c' || L.ToLower(c) == 's' ==>
            && r.board.objects == st.board.objects + [Movable(if L.ToLower(c) == 'c' then Crate else Keeper, n)]
            && r.board.tiles[n].value.placed == Some(|st.board.objects|))
      && (L.ToLower(c) != 'c' && L.ToLower(c) != 's' ==>
            r.board.objects == st.board.objects && r.board.tiles[n].value.placed.None?)
      && r.crates == st.crates + (if L.ToLower(c) == 'c' then [|st.board.objects|] else [])
      && r.keeper == if L.ToLower(c) == 's' then Some(|st.board.objects|) else st.keeper
  {
    var r := DecodeCell(st, c, n);
    forall q | q != n && q in st.board.tiles ensures q in r.board.tiles && r.board.tiles[q] == st.board.tiles[q] {
      assert B.GetTile(st.board, q) == st.board.tiles[q];
      assert B.GetTile(r.board, q) == B.GetTile(st.board, q);
    }
    assert B.GetTile(r.board, n) == r.board.tiles[n];
  }

  /** The state after one pass of the loop from cursor it. */
  function Step(lv: Level, st: Decoded, it: Pos): Decoded
    requires Covered(lv) && DecodedUpTo(lv, st, it) && MapHasNext(GetX(lv), GetY(lv), it)
  {
    MapIteratorIsGridIterator(GetX(lv), GetY(lv), it);
    GridSuccessor(GetX(lv), GetY(lv), it);
    var n := MapNext(GetX(lv), it);
    DecodeCell(st, CharAt(lv, n), n)
  }

  lemma StepCursor(lv: Level, st: Decoded, it: Pos)
    requires Covered(lv) && DecodedUpTo(lv, st, it) && MapHasNext(GetX(lv), GetY(lv), it)
    ensures var n := MapNext(GetX(lv), it);
      && InGrid(GetX(lv), GetY(lv), n) && Before(it, n)
      && st.board.tiles[n] == Some(Tile(Floor, None))
      && forall q :: InGrid(GetX(lv), GetY(lv), q) ==> (Before(it, q) <==> q == n || Before(n, q))
  {
    MapIteratorIsGridIterator(GetX(lv), GetY(lv), it);
    GridSuccessor(GetX(lv), GetY(lv), it);
  }

  lemma {:induction false} StepConsistent(lv: Level, st: Decoded, it: Pos)
    requires Covered(lv) && DecodedUpTo(lv, st, it) && MapHasNext(GetX(lv), GetY(lv), it)
    ensures var r := Step(lv, st, it);
      Sized(lv, r.board) && B.Consistent(r.board) && r.crates == CrateIds(r.board.objects)
  {
    StepCursor(lv, st, it);
    var n := MapNext(GetX(lv), it);
    var c := CharAt(lv, n);
    var b := st.board;
    DecodeCellEffect(st, c, n);
    var l := L.ToLower(c);
    if l == 'w' || l == 'd' {
      B.PlaceTilePreservesConsistent(b, TileFor(c), n);
    } else if l == 'c' || l == 's' {
      B.NewMovablePreservesConsistent(b, if l == 'c' then Crate else Keeper, n);
      CrateIdsAppend(b.objects, Movable(if l == 'c' then Crate else Keeper, n));
    }
  }

  lemma {:induction false} StepObjects(lv: Level, st: Decoded, it: Pos)
    requires Covered(lv) && DecodedUpTo(lv, st, it) && MapHasNext(GetX(lv), GetY(lv), it)
    ensures var r := Step(lv, st, it);
      var n := MapNext(GetX(lv), it);
      && InCreationOrder(r.board.objects)
      && (forall i :: 0 <= i < |r.board.objects| ==> !Before(n, r.board.objects[i].position))
  {
    StepCursor(lv, st, it);
    var n := MapNext(GetX(lv), it);
    var b := st.board;
    DecodeCellEffect(st, CharAt(lv, n), n);
    forall i | 0 <= i < |b.objects| ensures Before(b.objects[i].position, n) {
      NotBeforeIsAtOrBefore(it, b.objects[i].position, n);
    }
  }

  lemma {:induction false} StepCells(lv: Level, st: Decoded, it: Pos)
    requires Covered(lv) && DecodedUpTo(lv, st, it) && MapHasNext(GetX(lv), GetY(lv), it)
    ensures var rb := Step(lv, st, it).board;
      var n := MapNext(GetX(lv), it);
      && (forall q :: InGrid(GetX(lv), GetY(lv), q) && Before(n, q) ==> rb.tiles[q] == Some(Tile(Floor, None)))
      && (forall q :: InGrid(GetX(lv), GetY(lv), q) && !Before(n, q) ==> CellDecoded(rb, q, CharAt(lv, q)))
  {
    StepCursor(lv, st, it);
    var n := MapNext(GetX(lv), it);
    var b := st.board;
    var rb := Step(lv, st, it).board;
    DecodeCellEffect(st, CharAt(lv, n), n);
    forall q | InGrid(GetX(lv), GetY(lv), q) && !Before(n, q) ensures CellDecoded(rb, q, CharAt(lv, q)) {
      if q != n {
        assert CellDecoded(b, q, CharAt(lv, q));
        var t := b.tiles[q].value;
        if t.placed.Some? {
          assert rb.objects[t.placed.value] == b.objects[t.placed.value];
        }
      }
    }
  }

  lemma {:induction false} StepKeeper(lv: Level, st: Decoded, it: Pos)
    requires Covered(lv) && DecodedUpTo(lv, st, it) && MapHasNext(GetX(lv), GetY(lv), it)
    ensures KeeperIsLast(lv, Step(lv, st, it), MapNext(GetX(lv), it))
  {
    StepCursor(lv, st, it);
    var n := MapNext(GetX(lv), it);
    var b := st.board;
    var r := Step(lv, st, it);
    DecodeCellEffect(st, CharAt(lv, n), n);
    if IsKeeperChar(CharAt(lv, n)) {
      assert r.board.objects[r.keeper.value].position == n;
    } else if r.keeper.Some? {
      assert r.board.objects[r.keeper.value] == b.objects[r.keeper.value];
    }
  }

  /** One pass of the loop keeps the loop invariant, with the cursor advanced to the next cell. */
  lemma DecodeStep(lv: Level, st: Decoded, it: Pos)
    requires Covered(lv) && DecodedUpTo(lv, st, it) && MapHasNext(GetX(lv), GetY(lv), it)
    ensures InGrid(GetX(lv), GetY(lv), MapNext(GetX(lv), it))
    ensures DecodedUpTo(lv, Step(lv, st, it), MapNext(GetX(lv), it))
  {
    StepCursor(lv, st, it);
    StepConsistent(lv, st, it);
    StepObjects(lv, st, it);
    StepCells(lv, st, it);
    StepKeeper(lv, st, it);
  }

  /** The whole loop, from a state satisfying the invariant to the end of the level. */
  lemma {:induction false} DecodeFromInvariant(lv: Level, st: Decoded, it: Pos)
    requires Covered(lv) && DecodedUpTo(lv, st, it)
    ensures DecodedUpTo(lv, DecodeFrom(lv, st, it), Pos(GetX(lv) - 1, GetY(lv) - 1))
    decreases GetY(lv) - it.y, GetX(lv) - it.x
  {
    if MapHasNext(GetX(lv), GetY(lv), it) {
      DecodeStep(lv, st, it);
      DecodeFromInvariant(lv, Step(lv, st, it), MapNext(GetX(lv), it));
    } else {
      assert it == Pos(GetX(lv) - 1, GetY(lv) - 1);
    }
  }

  /** Before the loop: a floor-filled grid with no objects satisfies the invariant at the start cursor. */
  lemma InitialInvariant(lv: Level)
    requires Covered(lv)
    ensures DecodedUpTo(lv, Initial(lv), Start)
  {
  }

  /** The finished level: what loadLevel leaves in the grid, the keeper and the crates. */
  ghost predicate LevelDecoded(lv: Level, st: Decoded)
    requires Covered(lv)
  {
    var X, Y, b := GetX(lv), GetY(lv), st.board;
    && Sized(lv, b) && B.Consistent(b)
    && st.crates == CrateIds(b.objects)
    && InCreationOrder(b.objects)
    && (forall q :: InGrid(X, Y, q) ==> CellDecoded(b, q, CharAt(lv, q)))
    && (st.keeper.None? <==> forall q :: InGrid(X, Y, q) ==> !IsKeeperChar(CharAt(lv, q)))
    && (st.keeper.Some? ==>
          && st.keeper.value < |b.objects| && b.objects[st.keeper.value].kind == Keeper
          && var kp := b.objects[st.keeper.value].position;
          && InGrid(X, Y, kp) && IsKeeperChar(CharAt(lv, kp))
          && forall q :: InGrid(X, Y, q) && Before(kp, q) ==> !IsKeeperChar(CharAt(lv, q)))
  }

  /** At the last cell the loop invariant says the level is fully decoded. */
  lemma {:induction false} FinalInvariant(lv: Level, st: Decoded)
    requires Covered(lv) && DecodedUpTo(lv, st, Pos(GetX(lv) - 1, GetY(lv) - 1))
    ensures LevelDecoded(lv, st)
  {
    var X, Y := GetX(lv), GetY(lv);
    assert forall q :: InGrid(X, Y, q) ==> !Before(Pos(X - 1, Y - 1), q);
    if st.keeper.Some? {
      var kp := st.board.objects[st.keeper.value].position;
      assert B.Holds(st.board, kp, st.keeper.value);
    }
  }

  /**
   * loadLevel builds the level exactly: every cell holds the tile its
   * character gives, with a crate or the keeper where the character says;
   * the board is consistent; the crates array lists the crate objects, in
   * row-major order of their cells; the keeper is the one on the last 's'
   * cell, and there is none when the level has no 's'.
   */
  lemma DecodeLevelCorrect(lv: Level)
    requires Covered(lv)
    ensures LevelDecoded(lv, DecodeLevel(lv))
    ensures var st := DecodeLevel(lv);
      forall j, k :: 0 <= j < k < |st.crates| ==>
        Before(st.board.objects[st.crates[j]].position, st.board.objects[st.crates[k]].position)
  {
    InitialInvariant(lv);
    DecodeFromInvariant(lv, Initial(lv), Start);
    FinalInvariant(lv, DecodeLevel(lv));
  }

  /** The number of characters that lowercase to 'c'. */
  function CountCrateChars(s: seq<char>): nat
  {
    if s == [] then 0 else (if L.ToLower(s[0]) == 'c' then 1 else 0) + CountCrateChars(s[1..])
  }

  lemma {:induction false} DecodeFromCrateCount(lv: Level, st: Decoded, it: Pos)
    requires Covered(lv) && Sized(lv, st.board) && Cursor(GetX(lv), GetY(lv), it)
    ensures |DecodeFrom(lv, st, it).crates| == |st.crates| + CountCrateChars(MapChars(lv, it))
    decreases GetY(lv) - it.y, GetX(lv) - it.x
  {
    if MapHasNext(GetX(lv), GetY(lv), it) {
      MapIteratorIsGridIterator(GetX(lv), GetY(lv), it);
      GridSuccessor(GetX(lv), GetY(lv), it);
      var n := MapNext(GetX(lv), it);
      var ch := lv.content[n.y][n.x];
      DecodeFromCrateCount(lv, DecodeCell(st, ch, n), n);
      assert ([ch] + MapChars(lv, n))[1..] == MapChars(lv, n);
    }
  }

  /** getCratesCount: one crate per character the iterator reads as 'c' or 'C'; for a rectangular level, per such character of its rows. */
  lemma CrateCount(lv: Level)
    requires Covered(lv)
    ensures |DecodeLevel(lv).crates| == CountCrateChars(MapChars(lv, Start))
    ensures Rectangular(lv) ==> |DecodeLevel(lv).crates| == CountCrateChars(Concat(lv.content))
  {
    DecodeFromCrateCount(lv, Initial(lv), Start);
    if Rectangular(lv) {
      MapIteratorYieldsRows(lv);
    }
  }
}
