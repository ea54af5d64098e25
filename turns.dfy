/**
  * The cell update of `doTurn`: the layout is rebuilt with the one cell under
  * the pointer turned from empty to full, every other cell copied.
  */
module Turns {
  import opened Layouts
  import opened Geometry

  /**
    * The `map` of `doTurn`: cell `i` becomes full when `i` is the mouse index
    * and the cell is empty; width and height are copied (`...layout`).
    * An index outside the cells matches no cell.
    */
  function ApplyTurn(l: Layout, mouseIndex: int): (r: Layout)
    ensures r.width == l.width && r.height == l.height && |r.cells| == |l.cells|
  {
    l.(cells := seq(|l.cells|, i requires 0 <= i < |l.cells| =>
                      if mouseIndex == i && l.cells[i] == Empty then Full else l.cells[i]))
  }

  /** `doTurn` from the pointer position: the pixel mapping, then the cell update. */
  function DoTurn(l: Layout, p: Point, vw: real, vh: real): Layout
    requires vw > 0.0 && vh > 0.0
  {
    ApplyTurn(l, MouseIndex(p, vw, vh, l))
  }

  /** Whether a turn at `mouseIndex` clears a cell: it names an existing, empty cell. */
  predicate Clears(l: Layout, mouseIndex: int)
  {
    0 <= mouseIndex < |l.cells| && l.cells[mouseIndex] == Empty
  }

  /**
    * A turn is a single-cell update: the empty target becomes full, and when
    * the index is out of range or the target is not empty nothing changes.
    */
  lemma TurnIsUpdate(l: Layout, mouseIndex: int)
    ensures ApplyTurn(l, mouseIndex)
         == if Clears(l, mouseIndex) then l.(cells := l.cells[mouseIndex := Full]) else l
  {
    var r := ApplyTurn(l, mouseIndex);
    if Clears(l, mouseIndex) {
      assert r.cells == l.cells[mouseIndex := Full];
    } else {
      assert r.cells == l.cells;
    }
  }

  /** A turn keeps a layout well formed. */
  lemma TurnKeepsWellFormed(l: Layout, mouseIndex: int)
    requires WellFormed(l)
    ensures WellFormed(ApplyTurn(l, mouseIndex))
  {
  }

  /** Applying the same turn twice is the same as applying it once. */
  lemma TurnIdempotent(l: Layout, mouseIndex: int)
    ensures ApplyTurn(ApplyTurn(l, mouseIndex), mouseIndex) == ApplyTurn(l, mouseIndex)
  {
    TurnIsUpdate(l, mouseIndex);
    TurnIsUpdate(ApplyTurn(l, mouseIndex), mouseIndex);
  }

  /**
    * Turns never freeze or thaw: the number of frozen cells is unchanged; the
    * number of empty cells drops by one exactly when the turn clears a cell,
    * and the number of full cells rises by the same amount.
    */
  lemma TurnCounts(l: Layout, mouseIndex: int)
    ensures var r := ApplyTurn(l, mouseIndex);
      Count(r.cells, Frozen) == Count(l.cells, Frozen)
      && Count(r.cells, Empty) == Count(l.cells, Empty) - (if Clears(l, mouseIndex) then 1 else 0)
      && Count(r.cells, Full) == Count(l.cells, Full) + (if Clears(l, mouseIndex) then 1 else 0)
  {
    TurnIsUpdate(l, mouseIndex);
    if Clears(l, mouseIndex) {
      CountUpdate(l.cells, mouseIndex, Full, Frozen);
      CountUpdate(l.cells, mouseIndex, Full, Empty);
      CountUpdate(l.cells, mouseIndex, Full, Full);
    }
  }

  /** On a complete layout every turn is a no-op: there is no empty cell to clear. */
  lemma TurnOnCompleteIsNoOp(l: Layout, mouseIndex: int)
    requires CompletedLayout(l)
    ensures ApplyTurn(l, mouseIndex) == l
  {
    CompletedIff(l);
    TurnIsUpdate(l, mouseIndex);
  }

  /** The only turn that completes a layout is the one that clears its last empty cell. */
  lemma TurnCompletes(l: Layout, mouseIndex: int)
    requires !CompletedLayout(l)
    ensures CompletedLayout(ApplyTurn(l, mouseIndex))
        <==> Clears(l, mouseIndex) && Count(l.cells, Empty) == 1
  {
    CompletedIff(l);
    CompletedIff(ApplyTurn(l, mouseIndex));
    TurnCounts(l, mouseIndex);
  }
}
