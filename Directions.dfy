/**
 * The four movements on the grid and their fixed opposite pairing
 * (sokochan.Direction).
 */
module Directions {

  datatype Direction = North | East | South | West

  /** Direction.values(): every direction, in declaration order. */
  function AllDirections(): (r: seq<Direction>)
    ensures |r| == 4
    ensures forall i, j :: 0 <= i < j < |r| ==> r[i] != r[j]
  {
    [North, East, South, West]
  }

  /** The enumeration has no value besides the four listed. */
  lemma AllDirectionsComplete(d: Direction)
    ensures d in AllDirections()
  {
    var all := AllDirections();
    match d
    case North => assert all[0] == d;
    case East => assert all[1] == d;
    case South => assert all[2] == d;
    case West => assert all[3] == d;
  }

  /** getOppositeDirection: the pairing installed by the enum's static initialiser. */
  function Opposite(d: Direction): (r: Direction)
    ensures r != d
    ensures d == North <==> r == South
    ensures d == South <==> r == North
    ensures d == East <==> r == West
    ensures d == West <==> r == East
  {
    match d
    case North => South
    case South => North
    case East => West
    case West => East
  }

  /** Taking the opposite twice gives back the original direction. */
  lemma OppositeInvolution(d: Direction)
    ensures Opposite(Opposite(d)) == d
  {
  }
}
