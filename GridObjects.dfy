/**
 * The objects that make up a grid (sokochan.GridObjects): the three tile
 * classes with their placedObject slot and walkability rule, and the two
 * movable classes with their position and displacement.
 *
 * A movable object is referred to by its index in the registry of the grid
 * that created it (see Boards), so a tile's placedObject is an index.
 */
module GridObjects {
  import opened Wrappers
  import opened Points
  import opened Directions

  /** The concrete TileGridObject classes: Tile (the floor), Diamond (a target) and Wall. */
  datatype TileKind = Floor | Diamond | Wall

  /** A TileGridObject: its class and its placedObject slot. */
  datatype Tile = Tile(kind: TileKind, placed: Option<nat>)

  /** The concrete MovableGridObject classes. */
  datatype MovableKind = Crate | Keeper

  /** A MovableGridObject: its class and its position field. */
  datatype Movable = Movable(kind: MovableKind, position: Pos)

  /** The WALKABLE flag each tile constructor passes: true for Tile and Diamond, false for Wall. */
  function BaseWalkable(k: TileKind): (w: bool)
    ensures w <==> k != Wall
  {
    match k
    case Floor => true
    case Diamond => true
    case Wall => false
  }

  /**
   * isWalkable: Tile (and Diamond, which inherits from it) overrides the flag
   * with "holds no object"; Wall keeps its false flag.
   */
  predicate IsWalkable(t: Tile)
  {
    match t.kind
    case Wall => BaseWalkable(Wall)
    case _ => t.placed == None
  }

  /** A tile is walkable exactly when it is a floor or diamond tile with nothing on it. */
  lemma WalkableIffEmptyFloor(t: Tile)
    ensures IsWalkable(t) <==> t.kind != Wall && t.placed.None?
  {
  }

  /** A freshly constructed tile of the given class: placedObject starts out null. */
  function NewTile(k: TileKind): (t: Tile)
    ensures t.kind == k && t.placed.None?
    ensures IsWalkable(t) <==> k != Wall
  {
    Tile(k, None)
  }

  /**
   * setPlacedObject: refuses a non-null object on a tile that is not walkable
   * (returning false and keeping the tile), otherwise stores the object and
   * returns true. Clearing (None) always succeeds.
   */
  function SetPlacedObject(t: Tile, o: Option<nat>): (r: (bool, Tile))
    ensures r.1.kind == t.kind
    ensures o.None? ==> r.0 && r.1.placed.None?
    ensures o.Some? ==> (r.0 <==> t.kind != Wall && t.placed.None?)
    ensures r.0 ==> r.1.placed == o
    ensures !r.0 ==> r.1 == t
  {
    if !IsWalkable(t) && o.Some? then (false, t)
    else (true, t.(placed := o))
  }

  /** A Wall never accepts an object, so it stays empty. */
  lemma WallRefusesObjects(t: Tile, id: nat)
    requires t.kind == Wall && t.placed.None?
    ensures SetPlacedObject(t, Some(id)) == (false, t)
  {
  }

  /** The unit translation getDisplacement applies for each direction (y grows southwards). */
  function Offset(d: Direction): (r: (int, int))
    ensures (if r.0 < 0 then -r.0 else r.0) + (if r.1 < 0 then -r.1 else r.1) == 1
  {
    match d
    case North => (0, -1)
    case East => (1, 0)
    case South => (0, 1)
    case West => (-1, 0)
  }

  /** getDisplacement: the position one step from p in direction d. */
  function Displace(p: Pos, d: Direction): (q: Pos)
    ensures q != p
    ensures Before(p, q) <==> d == East || d == South
  {
    Pos(p.x + Offset(d).0, p.y + Offset(d).1)
  }

  /** Stepping back in the opposite direction returns to the starting position. */
  lemma DisplaceOpposite(p: Pos, d: Direction)
    ensures Displace(Displace(p, d), Opposite(d)) == p
  {
  }

  /** The displacement of the opposite direction is the negated displacement. */
  lemma OffsetOpposite(d: Direction)
    ensures Offset(Opposite(d)) == (-Offset(d).0, -Offset(d).1)
  {
  }
}
