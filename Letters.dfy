/**
 * The one-character codes that represent tiles in level and save files
 * (sokochan.Letters), with their case-insensitive lookup.
 */
module Letters {
  import opened Wrappers

  datatype Letter =
    | Wall
    | Tile
    | Crate
    | WarehouseKeeper
    | Diamond
    | CrateOnDiamond
    | WarehouseKeeperOnDiamond

  /** getCode: the character each constant is constructed with. */
  function Code(l: Letter): (c: char)
    ensures ToLower(c) == c
  {
    match l
    case Wall => 'w'
    case Tile => ' '
    case Crate => 'c'
    case WarehouseKeeper => 's'
    case Diamond => 'd'
    case CrateOnDiamond => 'p'
    case WarehouseKeeperOnDiamond => 'r'
  }

  /** values(): the constants in declaration order. */
  function Values(): (r: seq<Letter>)
    ensures |r| == 7
    ensures forall i, j :: 0 <= i < j < |r| ==> Code(r[i]) != Code(r[j])
  {
    [Wall, Tile, Crate, WarehouseKeeper, Diamond, CrateOnDiamond, WarehouseKeeperOnDiamond]
  }

  /**
   * Character.toLowerCase restricted to ASCII: upper-case letters map to their
   * lower-case form, every other character to itself.
   */
  function ToLower(c: char): (r: char)
    ensures 'A' <= c <= 'Z' ==> 'a' <= r <= 'z' && r as int - c as int == 32
    ensures !('A' <= c <= 'Z') ==> r == c
    ensures !('A' <= r <= 'Z')
  {
    if 'A' <= c <= 'Z' then (c as int + 32) as char else c
  }

  /** The loop of valueOf: the first constant of ls whose code is c, if any. */
  function Find(c: char, ls: seq<Letter>): (r: Option<Letter>)
    ensures r.Some? ==> r.value in ls && Code(r.value) == c
    ensures r.None? <==> forall l :: l in ls ==> Code(l) != c
  {
    if ls == [] then None
    else if Code(ls[0]) == c then Some(ls[0])
    else Find(c, ls[1..])
  }

  /** valueOf: lower-case the character, then search the constants; None stands for null. */
  function ValueOf(c: char): (r: Option<Letter>)
    ensures r.Some? ==> Code(r.value) == ToLower(c)
    ensures r.None? <==> forall l: Letter :: Code(l) != ToLower(c)
  {
    LettersComplete();
    Find(ToLower(c), Values())
  }

  /** Every constant is among values(). */
  lemma LettersComplete()
    ensures forall l: Letter :: l in Values()
  {
    var vs := Values();
    forall l: Letter ensures l in vs {
      match l
      case Wall => assert vs[0] == l;
      case Tile => assert vs[1] == l;
      case Crate => assert vs[2] == l;
      case WarehouseKeeper => assert vs[3] == l;
      case Diamond => assert vs[4] == l;
      case CrateOnDiamond => assert vs[5] == l;
      case WarehouseKeeperOnDiamond => assert vs[6] == l;
    }
  }

  /** Two constants with the same code are the same constant. */
  lemma CodeInjective(l1: Letter, l2: Letter)
    requires Code(l1) == Code(l2)
    ensures l1 == l2
  {
  }

  /** Looking up a constant's own code gives that constant back. */
  lemma ValueOfCode(l: Letter)
    ensures ValueOf(Code(l)) == Some(l)
  {
    var r := ValueOf(Code(l));
    assert r.Some? by { LettersComplete(); }
    CodeInjective(r.value, l);
  }

  /** Lookup ignores case: an upper-case code finds the same constant as its lower-case form. */
  lemma ValueOfIgnoresCase(c: char)
    ensures ValueOf(c) == ValueOf(ToLower(c))
  {
  }

  /** valueOf('W') is WALL. */
  lemma ValueOfUpperW()
    ensures ValueOf('W') == Some(Wall)
  {
    ValueOfCode(Wall);
  }
}
