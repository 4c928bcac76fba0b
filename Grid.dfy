/**
 * SokochanGrid as a class over a two-dimensional array of tiles, together
 * with its row-major GridIterator. The movable objects created on the grid
 * (the keeper and the crates) are kept in the registry `objects`, indexed by
 * identity; the tile holding an object stores its index.
 *
 * The ghost field `board` is the value the array and the registry represent;
 * every method states its effect as the corresponding function of module
 * Boards applied to the old value, where the properties are proved.
 */
module Grid {
  import opened Wrappers
  import opened Points
  import opened Directions
  import opened GridObjects
  import B = Boards

  // ---------------------------------------------------------------------------
  // SokochanGrid

  class SokochanGrid {
    /** X_SIZE and Y_SIZE, fixed at construction. */
    const width: int
    const height: int
    /** tileGridObjects, indexed [x, y]; None is a cell still null. */
    const cells: array2<Option<Tile>>
    /** The movable objects placed on this grid, by identity. */
    var objects: seq<Movable>
    /** The value the array and the registry represent. */
    ghost var board: B.Board

    ghost predicate Valid()
      reads this, cells
    {
      && cells.Length0 == width && cells.Length1 == height
      && board.width == width && board.height == height && board.objects == objects
      && forall x, y :: 0 <= x < width && 0 <= y < height ==> cells[x, y] == board.tiles[Pos(x, y)]
    }

    /** A grid of the given size whose every cell is null. */
    constructor (x: int, y: int)
      requires x >= 0 && y >= 0
      ensures Valid() && fresh(cells)
      ensures board == B.EmptyBoard(x, y)
    {
      width, height := x, y;
      cells := new Option<Tile>[x, y]((i, j) => None);
      objects := [];
      board := B.EmptyBoard(x, y);
    }

    /** getTile: bounds-checked read of a cell. */
    function GetTile(p: Pos): (r: Option<Tile>)
      requires Valid()
      reads this, cells
      ensures r == B.GetTile(board, p)
    {
      if p.x < 0 || p.x >= width || p.y < 0 || p.y >= height then None
      else cells[p.x, p.y]
    }

    /** getGridObject: bounds-checked read of a cell's occupant. */
    function GetGridObject(p: Pos): (r: Option<nat>)
      requires Valid() && B.Readable(board, p)
      reads this, cells
      ensures r == B.GetGridObject(board, p)
    {
      if p.x < 0 || p.x >= width || p.y < 0 || p.y >= height then None
      else cells[p.x, p.y].value.placed
    }

    /** TileGridObject.setPlacedObject on the tile at p, which must exist. */
    method SetPlacedObject(p: Pos, o: Option<nat>) returns (ok: bool)
      requires Valid() && B.InBounds(board, p) && board.tiles[p].Some?
      requires o.Some? ==> o.value < |objects|
      modifies cells, this
      ensures Valid() && objects == old(objects)
      ensures ok == GridObjects.SetPlacedObject(old(board.tiles[p].value), o).0
      ensures board == old(board).(tiles := old(board).tiles[p := Some(GridObjects.SetPlacedObject(old(board.tiles[p].value), o).1)])
    {
      var t := cells[p.x, p.y].value;
      var t';
      ok, t' := GridObjects.SetPlacedObject(t, o).0, GridObjects.SetPlacedObject(t, o).1;
      if ok {
        cells[p.x, p.y] := Some(t');
        board := board.(tiles := board.tiles[p := Some(t')]);
      }
    }

    /** removeGridObject: clears the occupant of the tile at p; nothing outside the grid. */
    method RemoveGridObject(p: Pos)
      requires Valid() && B.Readable(board, p)
      modifies this, cells
      ensures Valid() && board == B.RemoveGridObject(old(board), p)
    {
      if !(p.x < 0 || p.x >= width || p.y < 0 || p.y >= height) {
        var _ := SetPlacedObject(p, None);
      }
    }

    /** setGridTile: installs tile t at p. */
    method SetGridTile(p: Pos, t: Tile)
      requires Valid() && B.InBounds(board, p)
      requires t.placed.Some? ==> t.placed.value < |objects|
      modifies this, cells
      ensures Valid() && board == B.SetGridTile(old(board), p, t)
    {
      cells[p.x, p.y] := Some(t);
      board := B.SetGridTile(board, p, t);
    }

    /**
     * The constructors of Tile, Diamond and Wall: a new empty tile of kind k,
     * which TileGridObject.place installs at p.
     */
    method NewTile(k: TileKind, p: Pos)
      requires Valid() && B.InBounds(board, p)
      modifies this, cells
      ensures Valid() && board == B.PlaceTile(old(board), k, p)
    {
      SetGridTile(p, GridObjects.NewTile(k));
    }

    /**
     * populateWithTiles: a new Tile at every position the GridIterator returns.
     * On a grid with no cells the iterator only stops at once when the grid
     * is one row of width 0; for every other empty shape it indexes outside
     * the array.
     */
    method PopulateWithTiles()
      requires Valid() && ((width >= 1 && height >= 1) || (width == 0 && height == 1))
      modifies this, cells
      ensures Valid() && board == B.PopulateWithTiles(old(board))
    {
      var it := Start;
      while GridHasNext(width, height, it)
        invariant Valid() && Cursor(width, height, it)
        invariant board.objects == old(board.objects)
        invariant forall q :: InGrid(width, height, q) ==>
          board.tiles[q] == if Before(it, q) then old(board.tiles[q]) else Some(Tile(Floor, None))
        decreases height - it.y, width - it.x
      {
        GridSuccessor(width, height, it);
        it := GridIncrement(width, it);
        NewTile(Floor, it);
      }
      assert board.tiles == B.PopulateWithTiles(old(board)).tiles;
    }

    // -------------------------------------------------------------------------
    // GridObject, MovableGridObject, Crate and WarehouseKeeper, on object id

    /** GridObject.setPosition: only the stored position of object id changes. */
    method SetPosition(id: nat, p: Pos)
      requires Valid() && id < |objects|
      modifies this
      ensures Valid() && board == B.SetPosition(old(board), id, p)
    {
      objects := objects[id := objects[id].(position := p)];
      board := B.SetPosition(board, id, p);
    }

    /** MovableGridObject.place: offers object id to the tile at its position, ignoring a refusal. */
    method Place(id: nat)
      requires Valid() && id < |objects| && B.GetTile(board, objects[id].position).Some?
      modifies this, cells
      ensures Valid() && board == B.PlaceMovable(old(board), id)
    {
      var _ := SetPlacedObject(objects[id].position, Some(id));
    }

    /**
     * The constructors of Crate and WarehouseKeeper: registers a new object of
     * kind k at p and places it; id is its identity.
     */
    method NewMovable(k: MovableKind, p: Pos) returns (id: nat)
      requires Valid() && B.InBounds(board, p) && board.tiles[p].Some?
      modifies this, cells
      ensures Valid() && (id, board) == B.NewMovable(old(board), k, p)
    {
      id := |objects|;
      objects := objects + [Movable(k, p)];
      board := board.(objects := objects);
      Place(id);
    }

    /** getNeighbourTile: the tile next to object id in direction d. */
    function GetNeighbourTile(id: nat, d: Direction): (r: Option<Tile>)
      requires Valid() && id < |objects|
      reads this, cells
      ensures r == B.GetNeighbourTile(board, id, d)
    {
      GetTile(Displace(objects[id].position, d))
    }

    /** getNeighbour: the object next to object id in direction d. */
    function GetNeighbour(id: nat, d: Direction): (r: Option<nat>)
      requires Valid() && id < |objects| && B.Readable(board, Displace(objects[id].position, d))
      reads this, cells
      ensures r == B.GetNeighbour(board, id, d)
    {
      GetGridObject(Displace(objects[id].position, d))
    }

    /** canMove: the neighbouring tile exists and is walkable. */
    function CanMove(id: nat, d: Direction): (r: bool)
      requires Valid() && id < |objects|
      reads this, cells
      ensures r == B.CanMove(board, id, d)
    {
      var t := GetNeighbourTile(id, d);
      t.Some? && IsWalkable(t.value)
    }

    /** move: clear the source tile, update the position, place on the destination. */
    method Move(id: nat, d: Direction) returns (moved: bool)
      requires Valid() && id < |objects| && B.Readable(board, objects[id].position)
      modifies this, cells
      ensures Valid() && (moved, board) == B.Move(old(board), id, d)
    {
      if !CanMove(id, d) {
        return false;
      }
      RemoveGridObject(objects[id].position);
      SetPosition(id, Displace(objects[id].position, d));
      Place(id);
      return true;
    }

    /** Crate.isOnDiamond: the tile at the object's position is a Diamond. */
    function IsOnDiamond(id: nat): (r: bool)
      requires Valid() && id < |objects|
      reads this, cells
      ensures r == B.IsOnDiamond(board, id)
    {
      var t := GetTile(objects[id].position);
      t.Some? && t.value.kind == Diamond
    }

    /** WarehouseKeeper.getCrateInDirection: the neighbour of object id when it is a crate. */
    function GetCrateInDirection(id: nat, d: Direction): (r: Option<nat>)
      requires Valid() && id < |objects| && B.Readable(board, Displace(objects[id].position, d))
      reads this, cells
      ensures r == B.GetCrateInDirection(board, id, d)
    {
      var o := GetNeighbour(id, d);
      if o.Some? && objects[o.value].kind == Crate then o else None
    }

    /** WarehouseKeeper.movePushing for the keeper k: push the crate in front, then move. */
    method MovePushing(k: nat, d: Direction) returns (status: int)
      requires Valid() && k < |objects| && B.Populated(board)
      modifies this, cells
      ensures Valid() && (status, board) == B.MovePushing(old(board), k, d)
    {
      var crate := GetCrateInDirection(k, d);
      var pushed := false;
      var pushedStatus := 1;
      if crate.Some? {
        var wasOnDiamond := IsOnDiamond(crate.value);
        B.MoveKeepsShape(board, crate.value, d);
        pushed := Move(crate.value, d);
        if !pushed {
          return -1;
        }
        if wasOnDiamond != IsOnDiamond(crate.value) {
          pushedStatus := if wasOnDiamond then 3 else 2;
        }
      }
      B.MoveKeepsShape(board, k, d);
      var moved := Move(k, d);
      if moved {
        return if pushed then pushedStatus else 0;
      }
      return -1;
    }
  }
}
