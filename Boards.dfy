/**
 * The state of a SokochanGrid as a value, and every grid operation of the
 * Java code as a function on that value: the bounds-checked reads of
 * SokochanGrid, the placement rules of the tile classes, the move primitive of
 * MovableGridObject, Crate.isOnDiamond and WarehouseKeeper.movePushing.
 *
 * The imperative grid (module Grid) is proved to change its state exactly as
 * these functions say, and the lemmas here state what the functions promise.
 */
module Boards {
  import opened Wrappers
  import opened Points
  import opened Directions
  import opened GridObjects

  /**
   * X_SIZE, Y_SIZE, the tileGridObjects array (one entry per cell, None for a
   * cell still null) and the movable objects created on the grid, indexed by
   * identity.
   */
  datatype BoardData = BoardData(width: int, height: int, tiles: map<Pos, Option<Tile>>, objects: seq<Movable>)

  /** The array has exactly one entry per cell, and a tile only refers to an object that exists. */
  ghost predicate WellFormed(b: BoardData)
  {
    && (forall p :: p in b.tiles <==> InGrid(b.width, b.height, p))
    && (forall p :: p in b.tiles && b.tiles[p].Some? && b.tiles[p].value.placed.Some? ==>
          b.tiles[p].value.placed.value < |b.objects|)
  }

  type Board = b: BoardData | WellFormed(b) witness BoardData(0, 0, map[], [])

  predicate InBounds(b: Board, p: Pos)
  {
    InGrid(b.width, b.height, p)
  }

  /** Every cell holds a tile (the state populateWithTiles establishes). */
  ghost predicate Populated(b: Board)
  {
    forall p :: p in b.tiles ==> b.tiles[p].Some?
  }

  /** Reading the cell at p does not dereference null: p is outside the grid or holds a tile. */
  predicate Readable(b: Board, p: Pos)
  {
    !InBounds(b, p) || b.tiles[p].Some?
  }

  /** The tile at p holds object i. */
  predicate Holds(b: Board, p: Pos, i: nat)
  {
    p in b.tiles && b.tiles[p].Some? && b.tiles[p].value.placed == Some(i)
  }

  /**
   * Two-way occupancy consistency: a tile that holds an object is where that
   * object's position says it is, and is not a wall; every object is held by
   * the tile at its position.
   */
  ghost predicate Consistent(b: Board)
  {
    && (forall p, i: nat :: Holds(b, p, i) ==> i < |b.objects| && b.objects[i].position == p && b.tiles[p].value.kind != Wall)
    && (forall i :: 0 <= i < |b.objects| ==> Holds(b, b.objects[i].position, i))
  }

  // ---------------------------------------------------------------------------
  // SokochanGrid

  /** new SokochanGrid(x, y): every cell null, no objects yet. */
  function EmptyBoard(w: nat, h: nat): (b: Board)
    ensures b.width == w && b.height == h && b.objects == []
    ensures forall p :: InBounds(b, p) ==> b.tiles[p].None?
  {
    BoardData(w, h, map x, y | 0 <= x < w && 0 <= y < h :: Pos(x, y) := None, [])
  }

  /** getTile: the tile at p, or None outside the grid (and for a cell still null). */
  function GetTile(b: Board, p: Pos): (r: Option<Tile>)
    ensures InBounds(b, p) ==> r == b.tiles[p]
    ensures !InBounds(b, p) ==> r.None?
    ensures InBounds(b, p) && Populated(b) ==> r.Some?
  {
    if p.x < 0 || p.x >= b.width || p.y < 0 || p.y >= b.height then None
    else b.tiles[p]
  }

  /** getGridObject: the object on the tile at p; None outside the grid or on an empty tile. */
  function GetGridObject(b: Board, p: Pos): (r: Option<nat>)
    requires Readable(b, p)
    ensures r.Some? ==> InBounds(b, p) && r.value < |b.objects| && Holds(b, p, r.value)
    ensures r.None? ==> !InBounds(b, p) || b.tiles[p].value.placed.None?
  {
    if p.x < 0 || p.x >= b.width || p.y < 0 || p.y >= b.height then None
    else b.tiles[p].value.placed
  }

  /** removeGridObject: clears the occupant of the tile at p; does nothing outside the grid. */
  function RemoveGridObject(b: Board, p: Pos): (r: Board)
    requires Readable(b, p)
    ensures r.width == b.width && r.height == b.height && r.objects == b.objects
    ensures forall q :: q != p ==> GetTile(r, q) == GetTile(b, q)
    ensures InBounds(b, p) ==> GetTile(r, p) == Some(Tile(b.tiles[p].value.kind, None))
    ensures !InBounds(b, p) ==> r == b
  {
    if p.x < 0 || p.x >= b.width || p.y < 0 || p.y >= b.height then b
    else b.(tiles := b.tiles[p := Some(SetPlacedObject(b.tiles[p].value, None).1)])
  }

  /** setGridTile: installs tile t at p, replacing only that cell. */
  function SetGridTile(b: Board, p: Pos, t: Tile): (r: Board)
    requires InBounds(b, p)
    requires t.placed.Some? ==> t.placed.value < |b.objects|
    ensures r.width == b.width && r.height == b.height && r.objects == b.objects
    ensures GetTile(r, p) == Some(t)
    ensures forall q :: q != p ==> GetTile(r, q) == GetTile(b, q)
  {
    b.(tiles := b.tiles[p := Some(t)])
  }

  /**
   * The constructors of Tile, Diamond and Wall: a new, empty tile of the
   * given class placed at p by TileGridObject.place.
   */
  function PlaceTile(b: Board, k: TileKind, p: Pos): (r: Board)
    requires InBounds(b, p)
    ensures r.width == b.width && r.height == b.height && r.objects == b.objects
    ensures GetTile(r, p) == Some(Tile(k, None))
    ensures forall q :: q != p ==> GetTile(r, q) == GetTile(b, q)
    ensures Populated(b) ==> Populated(r)
  {
    SetGridTile(b, p, NewTile(k))
  }

  /** populateWithTiles: a new empty floor tile in every cell. */
  function PopulateWithTiles(b: Board): (r: Board)
    ensures r.width == b.width && r.height == b.height && r.objects == b.objects
    ensures Populated(r)
    ensures forall p :: InBounds(r, p) ==> r.tiles[p] == Some(Tile(Floor, None))
  {
    b.(tiles := map p | p in b.tiles :: Some(NewTile(Floor)))
  }

  // ---------------------------------------------------------------------------
  // GridObject and MovableGridObject

  /** setPosition: changes the stored position of object id and nothing else. */
  function SetPosition(b: Board, id: nat, p: Pos): (r: Board)
    requires id < |b.objects|
    ensures r.tiles == b.tiles && r.width == b.width && r.height == b.height
    ensures |r.objects| == |b.objects| && r.objects[id] == Movable(b.objects[id].kind, p)
    ensures forall i :: 0 <= i < |b.objects| && i != id ==> r.objects[i] == b.objects[i]
  {
    b.(objects := b.objects[id := b.objects[id].(position := p)])
  }

  /**
   * MovableGridObject.place: offers object id to the tile at its position;
   * the tile's refusal (an occupied tile or a wall) is ignored, as in the Java code.
   */
  function PlaceMovable(b: Board, id: nat): (r: Board)
    requires id < |b.objects|
    requires GetTile(b, b.objects[id].position).Some?
    ensures r.width == b.width && r.height == b.height && r.objects == b.objects
    ensures var p := b.objects[id].position;
      && (IsWalkable(b.tiles[p].value) ==> GetTile(r, p) == Some(Tile(b.tiles[p].value.kind, Some(id))))
      && (!IsWalkable(b.tiles[p].value) ==> r == b)
      && (forall q :: q != p ==> GetTile(r, q) == GetTile(b, q))
  {
    var p := b.objects[id].position;
    b.(tiles := b.tiles[p := Some(SetPlacedObject(b.tiles[p].value, Some(id)).1)])
  }

  /**
   * The constructors of Crate and WarehouseKeeper: a new object with the given
   * position is registered, then placed on the tile there.
   */
  function NewMovable(b: Board, k: MovableKind, p: Pos): (r: (nat, Board))
    requires InBounds(b, p) && b.tiles[p].Some?
    ensures r.0 == |b.objects| && r.1.objects == b.objects + [Movable(k, p)]
    ensures r.1.width == b.width && r.1.height == b.height
    ensures IsWalkable(b.tiles[p].value) ==> GetTile(r.1, p) == Some(Tile(b.tiles[p].value.kind, Some(r.0)))
    ensures !IsWalkable(b.tiles[p].value) ==> r.1.tiles == b.tiles
    ensures forall q :: q != p ==> GetTile(r.1, q) == GetTile(b, q)
    ensures Populated(b) ==> Populated(r.1)
  {
    var id := |b.objects|;
    var registered: Board := b.(objects := b.objects + [Movable(k, p)]);
    (id, PlaceMovable(registered, id))
  }

  /** getNeighbourTile: the tile next to object id in direction d, None outside the grid. */
  function GetNeighbourTile(b: Board, id: nat, d: Direction): (r: Option<Tile>)
    requires id < |b.objects|
    ensures var q := Displace(b.objects[id].position, d);
      && (InBounds(b, q) ==> r == b.tiles[q])
      && (!InBounds(b, q) ==> r.None?)
  {
    GetTile(b, Displace(b.objects[id].position, d))
  }

  /** getNeighbour: the object next to object id in direction d, None if empty or outside. */
  function GetNeighbour(b: Board, id: nat, d: Direction): (r: Option<nat>)
    requires id < |b.objects| && Readable(b, Displace(b.objects[id].position, d))
    ensures r.Some? ==> r.value < |b.objects| && Holds(b, Displace(b.objects[id].position, d), r.value)
    ensures var q := Displace(b.objects[id].position, d);
      && (InBounds(b, q) ==> r == b.tiles[q].value.placed)
      && (!InBounds(b, q) ==> r.None?)
  {
    GetGridObject(b, Displace(b.objects[id].position, d))
  }

  /**
   * canMove: the neighbouring tile exists and is walkable; a missing tile
   * (the NullPointerException the Java code catches) means no.
   */
  predicate CanMove(b: Board, id: nat, d: Direction)
    requires id < |b.objects|
  {
    var t := GetNeighbourTile(b, id, d);
    t.Some? && IsWalkable(t.value)
  }

  /** The destination of a move is free exactly when it is an empty, non-wall tile inside the grid. */
  lemma CanMoveIff(b: Board, id: nat, d: Direction)
    requires id < |b.objects|
    ensures var q := Displace(b.objects[id].position, d);
      CanMove(b, id, d) <==> InBounds(b, q) && b.tiles[q].Some? && b.tiles[q].value.kind != Wall && b.tiles[q].value.placed.None?
  {
  }

  /**
   * move: if the neighbouring tile is walkable, the source tile is cleared,
   * the position becomes the neighbouring cell and the object is placed there.
   */
  function Move(b: Board, id: nat, d: Direction): (r: (bool, Board))
    requires id < |b.objects| && Readable(b, b.objects[id].position)
    ensures r.0 <==> CanMove(b, id, d)
    ensures !r.0 ==> r.1 == b
    ensures r.0 ==>
      var p := b.objects[id].position;
      var q := Displace(p, d);
      && r.1.width == b.width && r.1.height == b.height
      && r.1.objects == b.objects[id := Movable(b.objects[id].kind, q)]
      && GetTile(r.1, q) == Some(Tile(b.tiles[q].value.kind, Some(id)))
      && (InBounds(b, p) ==> GetTile(r.1, p) == Some(Tile(b.tiles[p].value.kind, None)))
      && (forall c :: c != p && c != q ==> GetTile(r.1, c) == GetTile(b, c))
  {
    if !CanMove(b, id, d) then (false, b)
    else
      var p := b.objects[id].position;
      var removed := RemoveGridObject(b, p);
      var moved := SetPosition(removed, id, Displace(p, d));
      (true, PlaceMovable(moved, id))
  }

  // ---------------------------------------------------------------------------
  // Crate and WarehouseKeeper

  /** isOnDiamond: the tile at the object's position is a Diamond. */
  predicate IsOnDiamond(b: Board, id: nat)
    requires id < |b.objects|
  {
    var t := GetTile(b, b.objects[id].position);
    t.Some? && t.value.kind == Diamond
  }

  /** getCrateInDirection: the neighbouring object when it is a crate, otherwise None. */
  function GetCrateInDirection(b: Board, id: nat, d: Direction): (r: Option<nat>)
    requires id < |b.objects| && Readable(b, Displace(b.objects[id].position, d))
    ensures r.Some? ==> r.value < |b.objects| && b.objects[r.value].kind == Crate
                        && Holds(b, Displace(b.objects[id].position, d), r.value)
    ensures r.None? ==>
      var q := Displace(b.objects[id].position, d);
      !InBounds(b, q) || b.tiles[q].value.placed.None? || b.objects[b.tiles[q].value.placed.value].kind != Crate
  {
    var o := GetNeighbour(b, id, d);
    if o.Some? && b.objects[o.value].kind == Crate then o else None
  }

  /** Moving keeps the number of objects and every cell's tile or null. */
  lemma MoveKeepsShape(b: Board, id: nat, d: Direction)
    requires id < |b.objects| && Readable(b, b.objects[id].position)
    ensures |Move(b, id, d).1.objects| == |b.objects|
    ensures forall i :: 0 <= i < |b.objects| ==> Move(b, id, d).1.objects[i].kind == b.objects[i].kind
    ensures Populated(b) ==> Populated(Move(b, id, d).1)
  {
    var r := Move(b, id, d).1;
    if Populated(b) {
      forall c | c in r.tiles ensures r.tiles[c].Some? {
        assert GetTile(r, c).Some?;
      }
    }
  }

  /**
   * movePushing: the result code is -1 (failed), 0 (moved), 1 (moved and
   * pushed), 2 (pushed a crate onto a diamond) or 3 (pushed a crate off one).
   * A crate next to the keeper is moved first; if it cannot move nothing
   * moves; then the keeper moves.
   */
  function MovePushing(b: Board, k: nat, d: Direction): (r: (int, Board))
    requires k < |b.objects| && Populated(b)
    ensures r.0 in {-1, 0, 1, 2, 3}
    ensures Populated(r.1) && |r.1.objects| == |b.objects|
  {
    var crate := GetCrateInDirection(b, k, d);
    if crate.Some? then
      var c := crate.value;
      MoveKeepsShape(b, c, d);
      var (pushed, afterPush) := Move(b, c, d);
      if !pushed then (-1, afterPush)
      else
        var status := PushStatus(IsOnDiamond(b, c), IsOnDiamond(afterPush, c));
        MoveKeepsShape(afterPush, k, d);
        var (moved, afterMove) := Move(afterPush, k, d);
        if moved then (status, afterMove) else (-1, afterMove)
    else
      MoveKeepsShape(b, k, d);
      var (moved, afterMove) := Move(b, k, d);
      if moved then (0, afterMove) else (-1, afterMove)
  }

  /** The result code of a successful push, from whether the crate was and is on a diamond. */
  function PushStatus(was: bool, now: bool): (s: int)
    ensures s == 2 <==> !was && now
    ensures s == 3 <==> was && !now
    ensures s == 1 <==> was == now
  {
    if was != now then (if was then 3 else 2) else 1
  }

  /** Without a crate in the way, movePushing is a plain move reporting 0 or -1. */
  lemma MovePushingWithoutCrate(b: Board, k: nat, d: Direction)
    requires k < |b.objects| && Populated(b)
    requires GetCrateInDirection(b, k, d).None?
    ensures MovePushing(b, k, d) == (if CanMove(b, k, d) then 0 else -1, Move(b, k, d).1)
  {
  }

  /**
   * With a crate in the way: if the crate cannot move, nothing changes and the
   * result is -1 (so a crate is never pushed into another crate or a wall);
   * otherwise the code says how the crate's diamond status changed, and is
   * never 0.
   */
  lemma MovePushingWithCrate(b: Board, k: nat, d: Direction)
    requires k < |b.objects| && Populated(b)
    requires GetCrateInDirection(b, k, d).Some?
    ensures var c := GetCrateInDirection(b, k, d).value;
      var r := MovePushing(b, k, d);
      && r.0 != 0
      && (!CanMove(b, c, d) ==> r == (-1, b))
      && (r.0 == 2 ==> !IsOnDiamond(b, c) && IsOnDiamond(r.1, c))
      && (r.0 == 3 ==> IsOnDiamond(b, c) && !IsOnDiamond(r.1, c))
      && (r.0 == 1 ==> IsOnDiamond(b, c) == IsOnDiamond(r.1, c))
  {
    var c := GetCrateInDirection(b, k, d).value;
    var (pushed, afterPush) := Move(b, c, d);
    if pushed {
      assert c != k;
      MoveKeepsShape(b, c, d);
      MoveKeepsOtherDiamond(afterPush, k, d, c);
    }
  }

  /** Moving one object changes no other object's diamond status. */
  lemma MoveKeepsOtherDiamond(b: Board, id: nat, d: Direction, other: nat)
    requires id < |b.objects| && Readable(b, b.objects[id].position)
    requires other < |b.objects| && other != id
    ensures other < |Move(b, id, d).1.objects|
    ensures IsOnDiamond(Move(b, id, d).1, other) == IsOnDiamond(b, other)
  {
    var (moved, r) := Move(b, id, d);
    if moved {
      var c := b.objects[other].position;
      assert r.objects[other].position == c;
      assert GetTile(r, c).Some? ==> GetTile(r, c).value.kind == GetTile(b, c).value.kind;
    }
  }

  // ---------------------------------------------------------------------------
  // Occupancy consistency

  /** Two boards with the same size, objects and cell contents are the same board. */
  lemma {:induction false} BoardExtensionality(a: Board, b: Board)
    requires a.width == b.width && a.height == b.height && a.objects == b.objects
    requires forall c :: GetTile(a, c) == GetTile(b, c)
    ensures a == b
  {
    forall c | c in a.tiles ensures c in b.tiles && a.tiles[c] == b.tiles[c] {
      if a.tiles[c].Some? {
        assert GetTile(a, c) == a.tiles[c];
      } else {
        assert GetTile(b, c).None?;
      }
    }
    assert a.tiles.Keys == b.tiles.Keys;
  }

  /** In a consistent board every object stands on a tile, so moving it reads no null cell. */
  lemma ConsistentReadable(b: Board, id: nat)
    requires Consistent(b) && id < |b.objects|
    ensures Holds(b, b.objects[id].position, id)
    ensures Readable(b, b.objects[id].position)
  {
  }

  /** A move keeps the board consistent. */
  lemma {:induction false} MovePreservesConsistent(b: Board, id: nat, d: Direction)
    requires Consistent(b) && id < |b.objects|
    ensures Readable(b, b.objects[id].position)
    ensures Consistent(Move(b, id, d).1)
  {
    ConsistentReadable(b, id);
    var (moved, r) := Move(b, id, d);
    if moved {
      var p := b.objects[id].position;
      var q := Displace(p, d);
      forall c, i: nat | Holds(r, c, i)
        ensures i < |r.objects| && r.objects[i].position == c && r.tiles[c].value.kind != Wall
      {
        assert GetTile(r, c) == r.tiles[c];
        if c == q {
          assert i == id;
        } else if c == p {
          assert false;
        } else {
          assert GetTile(b, c) == GetTile(r, c);
          assert Holds(b, c, i);
        }
      }
      forall i | 0 <= i < |r.objects| ensures Holds(r, r.objects[i].position, i) {
        if i != id {
          var c := b.objects[i].position;
          assert Holds(b, c, i);
          assert GetTile(b, c) == b.tiles[c];
          assert GetTile(b, q) == b.tiles[q];
          assert GetTile(r, c) == GetTile(b, c);
        }
      }
    }
  }

  /** movePushing keeps the board consistent. */
  lemma {:induction false} MovePushingPreservesConsistent(b: Board, k: nat, d: Direction)
    requires Consistent(b) && Populated(b) && k < |b.objects|
    ensures Consistent(MovePushing(b, k, d).1)
  {
    var crate := GetCrateInDirection(b, k, d);
    if crate.Some? {
      var c := crate.value;
      MovePreservesConsistent(b, c, d);
      MoveKeepsShape(b, c, d);
      var afterPush := Move(b, c, d).1;
      MovePreservesConsistent(afterPush, k, d);
    } else {
      MovePreservesConsistent(b, k, d);
    }
  }

  /**
   * In a consistent board, once the crate in front of the keeper has moved
   * the keeper always follows it: the result is 1, 2 or 3, the keeper stands
   * where the crate was and the crate one cell further on.
   */
  lemma {:induction false} KeeperFollowsCrate(b: Board, k: nat, d: Direction)
    requires Consistent(b) && Populated(b) && k < |b.objects|
    requires GetCrateInDirection(b, k, d).Some?
    requires CanMove(b, GetCrateInDirection(b, k, d).value, d)
    ensures var r := MovePushing(b, k, d);
      var p := b.objects[k].position;
      var c := GetCrateInDirection(b, k, d).value;
      && r.0 in {1, 2, 3}
      && r.1.objects[k].position == Displace(p, d)
      && r.1.objects[c].position == Displace(Displace(p, d), d)
  {
    var p := b.objects[k].position;
    var q := Displace(p, d);
    var c := GetCrateInDirection(b, k, d).value;
    ConsistentReadable(b, k);
    assert b.objects[c].position == q;
    assert c != k;
    MoveKeepsShape(b, c, d);
    var afterPush := Move(b, c, d).1;
    assert afterPush.objects[k] == b.objects[k];
    assert GetTile(afterPush, q) == Some(Tile(b.tiles[q].value.kind, None));
    assert b.tiles[q].value.kind != Wall;
    assert CanMove(afterPush, k, d);
  }

  /**
   * A successful push changes three cells and two objects: the keeper's old
   * cell is left empty, the keeper stands on the crate's old cell and the
   * crate on the cell beyond, each cell keeping its tile kind; every other
   * cell and every other object is as it was.
   */
  lemma {:induction false} PushFrame(b: Board, k: nat, d: Direction)
    requires Consistent(b) && Populated(b) && k < |b.objects|
    requires GetCrateInDirection(b, k, d).Some?
    requires CanMove(b, GetCrateInDirection(b, k, d).value, d)
    ensures var r := MovePushing(b, k, d).1;
      var p := b.objects[k].position;
      var q := Displace(p, d);
      var q2 := Displace(q, d);
      var c := GetCrateInDirection(b, k, d).value;
      && InBounds(b, p) && InBounds(b, q) && InBounds(b, q2)
      && r.objects == b.objects[c := Movable(Crate, q2)][k := Movable(b.objects[k].kind, q)]
      && GetTile(r, p) == Some(Tile(b.tiles[p].value.kind, None))
      && GetTile(r, q) == Some(Tile(b.tiles[q].value.kind, Some(k)))
      && GetTile(r, q2) == Some(Tile(b.tiles[q2].value.kind, Some(c)))
      && (forall x :: x != p && x != q && x != q2 ==> GetTile(r, x) == GetTile(b, x))
  {
    var p := b.objects[k].position;
    var c := GetCrateInDirection(b, k, d).value;
    PushIsTwoMoves(b, k, d);
    TwoMovesFrame(b, c, k, d);
  }

  /** A push that goes through moves the crate and then the keeper, both successfully. */
  lemma PushIsTwoMoves(b: Board, k: nat, d: Direction)
    requires Consistent(b) && Populated(b) && k < |b.objects|
    requires GetCrateInDirection(b, k, d).Some?
    requires CanMove(b, GetCrateInDirection(b, k, d).value, d)
    ensures var c := GetCrateInDirection(b, k, d).value;
      && c != k && b.objects[c].position == Displace(b.objects[k].position, d)
      && b.objects[c].kind == Crate && InBounds(b, b.objects[k].position)
      && Readable(Move(b, c, d).1, Move(b, c, d).1.objects[k].position)
      && Move(Move(b, c, d).1, k, d).0
      && MovePushing(b, k, d).1 == Move(Move(b, c, d).1, k, d).1
  {
    var p := b.objects[k].position;
    var q := Displace(p, d);
    var c := GetCrateInDirection(b, k, d).value;
    ConsistentReadable(b, k);
    assert b.objects[c].position == q;
    assert c != k;
    MoveKeepsShape(b, c, d);
    var afterPush := Move(b, c, d).1;
    assert afterPush.objects[k] == b.objects[k];
    assert GetTile(afterPush, q) == Some(Tile(b.tiles[q].value.kind, None));
    assert CanMove(afterPush, k, d);
  }

  /** The cells and objects after moving crate c and then keeper k, from Move's own frame. */
  lemma TwoMovesFrame(b: Board, c: nat, k: nat, d: Direction)
    requires c < |b.objects| && k < |b.objects| && c != k
    requires Readable(b, b.objects[c].position) && CanMove(b, c, d)
    requires b.objects[c].position == Displace(b.objects[k].position, d) && b.objects[c].kind == Crate
    requires InBounds(b, b.objects[k].position)
    requires Readable(Move(b, c, d).1, Move(b, c, d).1.objects[k].position) && Move(Move(b, c, d).1, k, d).0
    ensures var r := Move(Move(b, c, d).1, k, d).1;
      var p := b.objects[k].position;
      var q := Displace(p, d);
      var q2 := Displace(q, d);
      && InBounds(b, p) && InBounds(b, q) && InBounds(b, q2)
      && r.objects == b.objects[c := Movable(Crate, q2)][k := Movable(b.objects[k].kind, q)]
      && GetTile(r, p) == Some(Tile(b.tiles[p].value.kind, None))
      && GetTile(r, q) == Some(Tile(b.tiles[q].value.kind, Some(k)))
      && GetTile(r, q2) == Some(Tile(b.tiles[q2].value.kind, Some(c)))
      && (forall x :: x != p && x != q && x != q2 ==> GetTile(r, x) == GetTile(b, x))
  {
    var p := b.objects[k].position;
    var q := Displace(p, d);
    var q2 := Displace(q, d);
    var a := Move(b, c, d).1;
    assert a.objects[k] == b.objects[k];
    assert p != q2;
    assert GetTile(a, p) == GetTile(b, p);
  }

  /**
   * No chain pushes: when the cell beyond the crate in front of the keeper
   * holds another object, is a wall or lies outside the grid, movePushing
   * fails and changes nothing.
   */
  lemma {:induction false} NoChainPush(b: Board, k: nat, d: Direction)
    requires Consistent(b) && Populated(b) && k < |b.objects|
    requires GetCrateInDirection(b, k, d).Some?
    requires var beyond := Displace(Displace(b.objects[k].position, d), d);
      !InBounds(b, beyond) || b.tiles[beyond].value.kind == Wall || b.tiles[beyond].value.placed.Some?
    ensures MovePushing(b, k, d) == (-1, b)
  {
    var c := GetCrateInDirection(b, k, d).value;
    assert b.objects[c].position == Displace(b.objects[k].position, d);
    CanMoveIff(b, c, d);
    MovePushingWithCrate(b, k, d);
  }

  /** Installing a tile on a cell with no occupant keeps the board consistent. */
  lemma {:induction false} PlaceTilePreservesConsistent(b: Board, k: TileKind, p: Pos)
    requires Consistent(b) && InBounds(b, p) && b.tiles[p].Some? && b.tiles[p].value.placed.None?
    ensures Consistent(PlaceTile(b, k, p))
  {
    var r := PlaceTile(b, k, p);
    forall c, i: nat | Holds(r, c, i)
      ensures i < |r.objects| && r.objects[i].position == c && r.tiles[c].value.kind != Wall
    {
      assert GetTile(r, c) == r.tiles[c];
      assert c != p;
      assert GetTile(b, c) == GetTile(r, c);
      assert Holds(b, c, i);
    }
    forall i | 0 <= i < |r.objects| ensures Holds(r, r.objects[i].position, i) {
      var c := b.objects[i].position;
      assert Holds(b, c, i);
      assert c != p;
      assert GetTile(b, c) == b.tiles[c];
      assert GetTile(r, c) == GetTile(b, c);
    }
  }

  /** Creating a crate or keeper on an empty floor or diamond cell keeps the board consistent. */
  lemma {:induction false} NewMovablePreservesConsistent(b: Board, k: MovableKind, p: Pos)
    requires Consistent(b) && InBounds(b, p) && b.tiles[p].Some?
    requires b.tiles[p].value.placed.None? && b.tiles[p].value.kind != Wall
    ensures Consistent(NewMovable(b, k, p).1)
  {
    var (id, r) := NewMovable(b, k, p);
    forall c, i: nat | Holds(r, c, i)
      ensures i < |r.objects| && r.objects[i].position == c && r.tiles[c].value.kind != Wall
    {
      assert GetTile(r, c) == r.tiles[c];
      if c != p {
        assert GetTile(b, c) == GetTile(r, c);
        assert Holds(b, c, i);
      }
    }
    forall i | 0 <= i < |r.objects| ensures Holds(r, r.objects[i].position, i) {
      if i < |b.objects| {
        var c := b.objects[i].position;
        assert Holds(b, c, i);
        assert c != p;
        assert GetTile(b, c) == b.tiles[c];
        assert GetTile(r, c) == GetTile(b, c);
      } else {
        assert GetTile(r, p) == r.tiles[p];
      }
    }
  }

  /** movePushing changes positions only: the objects keep their kinds. */
  lemma MovePushingKeepsKinds(b: Board, k: nat, d: Direction)
    requires k < |b.objects| && Populated(b)
    ensures forall i :: 0 <= i < |b.objects| ==> MovePushing(b, k, d).1.objects[i].kind == b.objects[i].kind
  {
    var crate := GetCrateInDirection(b, k, d);
    if crate.Some? {
      MoveKeepsShape(b, crate.value, d);
      MoveKeepsShape(Move(b, crate.value, d).1, k, d);
    } else {
      MoveKeepsShape(b, k, d);
    }
  }

  /**
   * A move is undone by the move back: after a successful move in direction
   * d, moving the same object in the opposite direction succeeds and restores
   * the board exactly.
   */
  lemma {:induction false} MoveThenBack(b: Board, id: nat, d: Direction)
    requires id < |b.objects| && Holds(b, b.objects[id].position, id)
    requires b.tiles[b.objects[id].position].value.kind != Wall
    requires CanMove(b, id, d)
    ensures var b' := Move(b, id, d).1;
      Readable(b', b'.objects[id].position) && Move(b', id, Opposite(d)) == (true, b)
  {
    var p := b.objects[id].position;
    var q := Displace(p, d);
    DisplaceOpposite(p, d);
    var b' := Move(b, id, d).1;
    assert GetTile(b', q) == Some(Tile(b.tiles[q].value.kind, Some(id)));
    assert GetTile(b', p) == Some(Tile(b.tiles[p].value.kind, None));
    assert CanMove(b', id, Opposite(d));
    var b'' := Move(b', id, Opposite(d)).1;
    assert b''.objects == b.objects;
    forall c ensures GetTile(b'', c) == GetTile(b, c) {
      if c == p {
        assert GetTile(b'', p) == Some(Tile(b.tiles[p].value.kind, Some(id)));
      } else if c == q {
        assert GetTile(b'', q) == Some(Tile(b.tiles[q].value.kind, None));
      }
    }
    BoardExtensionality(b'', b);
  }
}
