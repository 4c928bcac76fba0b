/**
 * Grid coordinates (java.awt.Point used as an (x, y) pair) and the row-major
 * order in which both the grid iterator and the level iterator walk a grid.
 */
module Points {

  datatype Pos = Pos(x: int, y: int)

  /** Strict row-major order: an earlier row, or the same row and a smaller column. */
  predicate Before(p: Pos, q: Pos)
  {
    p.y < q.y || (p.y == q.y && p.x < q.x)
  }

  /** p is a cell of a w-by-h grid. */
  predicate InGrid(w: int, h: int, p: Pos)
  {
    0 <= p.x < w && 0 <= p.y < h
  }

  /** Where both iterators start: just before the first cell of the first row. */
  const Start := Pos(-1, 0)

  /** The positions an iterator cursor can take: the start, or a cell of the grid. */
  predicate Cursor(w: int, h: int, p: Pos)
  {
    p == Start || InGrid(w, h, p)
  }

  // ---------------------------------------------------------------------------
  // SokochanGrid.GridIterator

  /** hasNext: the cursor is not yet on the last cell. */
  predicate GridHasNext(w: int, h: int, it: Pos)
  {
    !(it.x == w - 1 && it.y == h - 1)
  }

  /** increment: the next column, or the first column of the next row. */
  function GridIncrement(w: int, it: Pos): (n: Pos)
    ensures Before(it, n)
  {
    if it.x < w - 1 then Pos(it.x + 1, it.y) else Pos(0, it.y + 1)
  }

  /**
   * From a cursor with a next cell, increment lands on a cell of the grid,
   * the first cell after the cursor.
   */
  lemma GridSuccessor(w: int, h: int, it: Pos)
    requires w >= 1 && h >= 1 && Cursor(w, h, it) && GridHasNext(w, h, it)
    ensures InGrid(w, h, GridIncrement(w, it))
    ensures forall q :: InGrid(w, h, q) ==>
      (Before(it, q) <==> q == GridIncrement(w, it) || Before(GridIncrement(w, it), q))
  {
  }

  /** The cells the iterator returns, in order, when started from cursor it. */
  function GridTrace(w: int, h: int, it: Pos): (t: seq<Pos>)
    requires w >= 1 && h >= 1 && Cursor(w, h, it)
    decreases h - it.y, w - it.x
  {
    if !GridHasNext(w, h, it) then []
    else
      GridSuccessor(w, h, it);
      var n := GridIncrement(w, it);
      [n] + GridTrace(w, h, n)
  }

  /**
   * The iterator visits, in strictly row-major order (so each exactly once),
   * precisely the cells of the grid after the cursor.
   */
  lemma {:induction false} GridTraceOrder(w: int, h: int, it: Pos)
    requires w >= 1 && h >= 1 && Cursor(w, h, it)
    ensures var t := GridTrace(w, h, it);
      && (forall i, j :: 0 <= i < j < |t| ==> Before(t[i], t[j]))
      && (forall q :: q in t <==> InGrid(w, h, q) && Before(it, q))
    decreases h - it.y, w - it.x
  {
    if GridHasNext(w, h, it) {
      GridSuccessor(w, h, it);
      var n := GridIncrement(w, it);
      GridTraceOrder(w, h, n);
      var t := GridTrace(w, h, it);
      assert t == [n] + GridTrace(w, h, n);
      forall i, j | 0 <= i < j < |t| ensures Before(t[i], t[j]) {
        if i == 0 {
          assert t[j] in GridTrace(w, h, n);
        }
      }
    } else {
      forall q | InGrid(w, h, q) && Before(it, q) ensures false {
      }
    }
  }

  /** The number of cells the iterator returns from cursor it. */
  lemma {:induction false} GridTraceLength(w: int, h: int, it: Pos)
    requires w >= 1 && h >= 1 && Cursor(w, h, it)
    ensures |GridTrace(w, h, it)| == (h - 1 - it.y) * w + (w - 1 - it.x)
    decreases h - it.y, w - it.x
  {
    if GridHasNext(w, h, it) {
      GridSuccessor(w, h, it);
      var n := GridIncrement(w, it);
      GridTraceLength(w, h, n);
      if it.x < w - 1 {
      } else {
        assert (h - 1 - it.y) * w == (h - 1 - n.y) * w + w;
      }
    }
  }

  /** From a fresh iterator every cell is visited once: X_SIZE * Y_SIZE steps. */
  lemma GridTraceFromStart(w: int, h: int)
    requires w >= 1 && h >= 1
    ensures |GridTrace(w, h, Start)| == w * h
    ensures forall q :: q in GridTrace(w, h, Start) <==> InGrid(w, h, q)
  {
    GridTraceLength(w, h, Start);
    GridTraceOrder(w, h, Start);
    assert (h - 1) * w + w == w * h;
  }
}
