/**
  * Boards of the snow-clearing puzzle: a rectangle of cells, each frozen,
  * cleared ("full": a present is shown) or empty (the only kind a click acts on).
  */
module Layouts {

  /** `CellType`: `full` is the state an empty cell reaches when the player clears it. */
  datatype CellType = Frozen | Full | Empty

  /** `Layout`: the cells are stored row by row. */
  datatype Layout = Layout(width: nat, height: nat, cells: seq<CellType>)

  /** Every layout the program builds has exactly `width * height` cells. */
  predicate WellFormed(l: Layout)
  {
    |l.cells| == l.width * l.height
  }

  /**
    * One step at a time, the `reduce` of `completedLayout`: the accumulator
    * stays true while no `empty` cell has been seen.
    */
  function AllNotEmpty(acc: bool, cells: seq<CellType>): bool
  {
    if |cells| == 0 then acc
    else AllNotEmpty(acc && cells[0] != Empty, cells[1..])
  }

  /** `completedLayout`: the fold started from `true` over all cells. */
  predicate CompletedLayout(l: Layout)
  {
    AllNotEmpty(true, l.cells)
  }

  /** Number of cells of kind `c`. */
  function Count(cells: seq<CellType>, c: CellType): nat
  {
    if |cells| == 0 then 0
    else (if cells[0] == c then 1 else 0) + Count(cells[1..], c)
  }

  /** The fold yields its seed exactly when no cell is empty. */
  lemma {:induction false} AllNotEmptyMeans(acc: bool, cells: seq<CellType>)
    ensures AllNotEmpty(acc, cells) <==> acc && forall i :: 0 <= i < |cells| ==> cells[i] != Empty
  {
    if |cells| > 0 {
      AllNotEmptyMeans(acc && cells[0] != Empty, cells[1..]);
      assert forall i :: 1 <= i < |cells| ==> cells[i] == cells[1..][i - 1];
    }
  }

  /** A count is zero exactly when the kind does not occur. */
  lemma {:induction false} CountZeroMeans(cells: seq<CellType>, c: CellType)
    ensures Count(cells, c) == 0 <==> forall i :: 0 <= i < |cells| ==> cells[i] != c
  {
    if |cells| > 0 {
      CountZeroMeans(cells[1..], c);
      assert forall i :: 1 <= i < |cells| ==> cells[i] == cells[1..][i - 1];
    }
  }

  /** A layout is complete exactly when none of its cells is empty. */
  lemma CompletedIff(l: Layout)
    ensures CompletedLayout(l) <==> forall i :: 0 <= i < |l.cells| ==> l.cells[i] != Empty
    ensures CompletedLayout(l) <==> Count(l.cells, Empty) == 0
  {
    AllNotEmptyMeans(true, l.cells);
    CountZeroMeans(l.cells, Empty);
  }

  /** A layout without cells (zero width or zero height) is always complete. */
  lemma ZeroSizedIsComplete(l: Layout)
    requires WellFormed(l)
    requires l.width == 0 || l.height == 0
    ensures CompletedLayout(l)
  {
    assert |l.cells| == 0;
  }

  /** An incomplete layout has an empty cell, so a positive width and height. */
  lemma IncompleteHasCells(l: Layout)
    requires WellFormed(l) && !CompletedLayout(l)
    ensures l.width > 0 && l.height > 0
  {
    CompletedIff(l);
    NonEmptyHasWidth(l);
  }

  /** A layout with at least one cell has a positive width and height. */
  lemma NonEmptyHasWidth(l: Layout)
    requires WellFormed(l) && |l.cells| > 0
    ensures l.width > 0 && l.height > 0
  {
  }

  /**
    * Completion does not look at how the non-empty cells split between
    * frozen and full: layouts with the same empty positions agree.
    */
  lemma CompletionIgnoresFrozenVsFull(l1: Layout, l2: Layout)
    requires |l1.cells| == |l2.cells|
    requires forall i :: 0 <= i < |l1.cells| ==> (l1.cells[i] == Empty <==> l2.cells[i] == Empty)
    ensures CompletedLayout(l1) <==> CompletedLayout(l2)
  {
    CompletedIff(l1);
    CompletedIff(l2);
  }

  /** Replacing one cell moves one unit of count from the old kind to the new one. */
  lemma {:induction false} CountUpdate(cells: seq<CellType>, i: nat, v: CellType, c: CellType)
    requires i < |cells|
    ensures Count(cells[i := v], c)
         == Count(cells, c) - (if cells[i] == c then 1 else 0) + (if v == c then 1 else 0)
  {
    if i == 0 {
      assert cells[i := v][1..] == cells[1..];
    } else {
      CountUpdate(cells[1..], i - 1, v, c);
      assert cells[i := v][1..] == cells[1..][i - 1 := v];
    }
  }
}
