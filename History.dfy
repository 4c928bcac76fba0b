/**
 * SokochanEngine.HistoryElement and SokochanEngine.HistoryStack: the moves
 * available to undo, a stack that drops its oldest entries once it holds
 * more than MAX_SIZE of them.
 */
module History {
  import opened Directions

  /** A recorded move: its direction and whether it pushed a crate. */
  datatype HistoryElement = HistoryElement(direction: Direction, pushedCrate: bool)

  /** HistoryStack.MAX_SIZE */
  const MaxSize := 16

  /**
   * The stack after push(e): when it holds more than MaxSize entries, all
   * but the newest MaxSize + 1 are dropped first (removeRange(0, size - MaxSize - 1)).
   */
  function Pushed(h: seq<HistoryElement>, e: HistoryElement): (r: seq<HistoryElement>)
    ensures 0 < |r| <= MaxSize + 2 && |r| <= |h| + 1
    ensures r[|r| - 1] == e
    ensures r[..|r| - 1] == h[|h| - (|r| - 1)..]
    ensures |h| <= MaxSize + 1 ==> r == h + [e]
    ensures |h| > MaxSize ==> |r| == MaxSize + 2
  {
    if |h| > MaxSize then h[|h| - MaxSize - 1..] + [e] else h + [e]
  }

  /** Pop right after push gives back the old stack exactly when nothing was dropped. */
  lemma PopAfterPush(h: seq<HistoryElement>, e: HistoryElement)
    ensures var r := Pushed(h, e); r[..|r| - 1] == h <==> |h| <= MaxSize + 1
  {
    var r := Pushed(h, e);
    if |h| > MaxSize + 1 {
      assert |r[..|r| - 1]| == MaxSize + 1 < |h|;
    }
  }

  class HistoryStack {
    /** The entries, oldest first. */
    var elements: seq<HistoryElement>

    constructor ()
      ensures elements == []
    {
      elements := [];
    }

    predicate IsEmpty()
      reads this
    {
      elements == []
    }

    /** push, with the trimming above. */
    method Push(item: HistoryElement)
      modifies this
      ensures elements == Pushed(old(elements), item)
    {
      if |elements| > MaxSize {
        elements := elements[|elements| - MaxSize - 1..];
      }
      elements := elements + [item];
    }

    /** pop: removes and returns the newest entry. */
    method Pop() returns (item: HistoryElement)
      requires elements != []
      modifies this
      ensures old(elements) == elements + [item]
    {
      item := elements[|elements| - 1];
      elements := elements[..|elements| - 1];
    }
  }
}
