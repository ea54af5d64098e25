/**
  * The state `main` keeps in its closure (the current layout `base`, the
  * `running` flag, `mouseDown`, the viewport size) and the handlers that
  * reassign it: the per-frame `resolveState` and the mouse listeners.
  */
module Game {
  import opened Layouts
  import opened Generator
  import opened Geometry
  import opened Turns
  import opened Tiles

  /** The board `main` starts with: a plus sign of five empty cells in a 3 by 3 grid. */
  const InitialLayout: Layout :=
    Layout(3, 3, [Frozen, Empty, Frozen, Empty, Empty, Empty, Frozen, Empty, Frozen])

  /**
    * The first round: clearing the five empty cells of the initial board
    * makes them full, leaves the four frozen ones, and completes the board.
    */
  lemma FirstRoundWonByFiveClicks()
    ensures
      var l := ApplyTurn(ApplyTurn(ApplyTurn(ApplyTurn(ApplyTurn(InitialLayout, 1), 3), 4), 5), 7);
      l == ClearedPlus && CompletedLayout(l)
  {
    var l1 := ClearStep(InitialLayout, 1,
      [Frozen, Full, Frozen, Empty, Empty, Empty, Frozen, Empty, Frozen]);
    var l2 := ClearStep(l1, 3, [Frozen, Full, Frozen, Full, Empty, Empty, Frozen, Empty, Frozen]);
    var l3 := ClearStep(l2, 4, [Frozen, Full, Frozen, Full, Full, Empty, Frozen, Empty, Frozen]);
    var l4 := ClearStep(l3, 5, [Frozen, Full, Frozen, Full, Full, Full, Frozen, Empty, Frozen]);
    var l5 := ClearStep(l4, 7, [Frozen, Full, Frozen, Full, Full, Full, Frozen, Full, Frozen]);
    ClearedPlusIsComplete();
  }

  /** The initial board with its five empty cells cleared. */
  const ClearedPlus: Layout :=
    Layout(3, 3, [Frozen, Full, Frozen, Full, Full, Full, Frozen, Full, Frozen])

  /** That board has no empty cell left. */
  lemma ClearedPlusIsComplete()
    ensures CompletedLayout(ClearedPlus)
  {
  }

  /** One click of the scenario above: the target is empty and becomes full. */
  lemma ClearStep(l: Layout, i: nat, expected: seq<CellType>) returns (r: Layout)
    requires i < |l.cells| && l.cells[i] == Empty && expected == l.cells[i := Full]
    ensures r == ApplyTurn(l, i) && r.cells == expected
  {
    TurnIsUpdate(l, i);
    r := ApplyTurn(l, i);
  }

  /** The frame of the initial board in a 900 by 900 viewport: 180-pixel tiles, one tile of margin. */
  lemma InitialFrameIn900Square()
    ensures BoardFrame(900.0, 900.0, InitialLayout) == Frame(180.0, 180.0, 180.0)
  {
    assert Side(900.0, 900.0, InitialLayout) == 180.0;
    assert TilesFitting(900.0, 180.0) == 5;
    assert OffsetTiles(900.0, 180.0, 3) == 1;
  }

  /** A click at the centre of a 900 by 900 viewport selects the centre cell, index 4. */
  lemma CentreClickSelectsCentreCell()
    ensures MouseIndex(Point(450.0, 450.0), 900.0, 900.0, InitialLayout) == 4
  {
    InitialFrameIn900Square();
    PointerOnSquare(Frame(180.0, 180.0, 180.0), Position(1, 1), 90.0, 90.0);
  }

  /**
    * A click right of the initial board, level with its top row, is off the
    * board (column 3 of a 3-wide board) yet clears the first cell of the
    * second row.
    */
  lemma ClickRightOfBoardClearsNextRow()
    ensures PointerCell(BoardFrame(900.0, 900.0, InitialLayout), Point(730.0, 190.0)) == Position(3, 0)
    ensures DoTurn(InitialLayout, Point(730.0, 190.0), 900.0, 900.0).cells[3] == Full
    ensures InitialLayout.cells[3] == Empty
  {
    InitialFrameIn900Square();
    PointerOnSquare(Frame(180.0, 180.0, 180.0), Position(3, 0), 10.0, 10.0);
    TurnIsUpdate(InitialLayout, 3);
  }

  class Game {
    /** The current layout. */
    var base: Layout
    /** False only during the pause after a won round. */
    var running: bool
    /** Whether the mouse button is held since the last `mousedown`. */
    var mouseDown: bool
    /** Viewport size in pixels (`window.innerWidth`, `window.innerHeight`). */
    var width: real
    var height: real

    ghost predicate Valid()
      reads this
    {
      WellFormed(base) && width > 0.0 && height > 0.0
    }

    /** `main` up to the listeners: the initial board, running, no button held. */
    constructor (vw: real, vh: real)
      requires vw > 0.0 && vh > 0.0
      ensures Valid()
      ensures base == InitialLayout && running && !mouseDown
      ensures width == vw && height == vh
    {
      base := InitialLayout;
      running := true;
      mouseDown := false;
      width, height := vw, vh;
    }

    /** `doTurn`: replace the layout by the one with the cell under the pointer cleared. */
    method Turn(p: Point)
      requires Valid()
      modifies this`base
      ensures Valid()
      ensures base == DoTurn(old(base), p, width, height)
    {
      TurnKeepsWellFormed(base, MouseIndex(p, width, height, base));
      base := DoTurn(base, p, width, height);
    }

    /** The `mousedown` listener: hold the button, then take a turn, running or not. */
    method MouseDown(p: Point)
      requires Valid()
      modifies this`base, this`mouseDown
      ensures Valid()
      ensures mouseDown
      ensures base == DoTurn(old(base), p, width, height)
    {
      mouseDown := true;
      Turn(p);
    }

    /** The `mousemove` listener: a turn only while the button is held. */
    method MouseMove(p: Point)
      requires Valid()
      modifies this`base
      ensures Valid()
      ensures base == if mouseDown then DoTurn(old(base), p, width, height) else old(base)
    {
      if mouseDown {
        Turn(p);
      }
    }

    /** The `mouseup` listener: release the button; the layout is untouched. */
    method MouseUp()
      modifies this`mouseDown
      ensures !mouseDown
    {
      mouseDown := false;
    }

    /**
      * `resolveState` up to its first pause: on a complete layout, release the
      * button, install a freshly generated layout and stop running; otherwise
      * nothing changes. The draws feed `generateLayout()`.
      */
    method ResolveState(draws: seq<Draw>) returns (won: bool)
      requires Valid() && running
      requires CompletedLayout(base) ==> GenerateLayout(draws, DefaultProbability).Some?
      modifies this`base, this`mouseDown, this`running
      ensures Valid()
      ensures won == old(CompletedLayout(base))
      ensures won ==> base == GenerateLayout(draws, DefaultProbability).value
                      && Generated(base) && !mouseDown && !running
      ensures !won ==> base == old(base) && mouseDown == old(mouseDown) && running
    {
      won := CompletedLayout(base);
      if won {
        mouseDown := false;
        base := GenerateLayout(draws, DefaultProbability).value;
        running := false;
      }
    }

    /** The end of the two pauses of `resolveState`: running again; nothing else changes. */
    method FinishWinPause()
      requires !running
      modifies this`running
      ensures running
    {
      running := true;
    }

    /**
      * One call of `loop` (drawing left out): while running, resolve the
      * state; during the pause nothing happens.
      */
    method Loop(draws: seq<Draw>) returns (won: bool)
      requires Valid()
      requires running && CompletedLayout(base) ==> GenerateLayout(draws, DefaultProbability).Some?
      modifies this`base, this`mouseDown, this`running
      ensures Valid()
      ensures won == (old(running) && old(CompletedLayout(base)))
      ensures won ==> base == GenerateLayout(draws, DefaultProbability).value
                      && Generated(base) && !running && !mouseDown
      ensures !won ==> base == old(base) && mouseDown == old(mouseDown) && running == old(running)
    {
      won := false;
      if running {
        won := ResolveState(draws);
      }
    }
  }
}
