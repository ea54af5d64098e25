/**
  * The pixel arithmetic shared by the renderer and the click handler: tile
  * side, board offset, and the cell under the pointer. JavaScript numbers are
  * modelled as exact reals.
  */
module Geometry {
  import opened Layouts
  import opened Tiles

  function Min(a: real, b: real): real
  {
    if a <= b then a else b
  }

  function Max(a: int, b: int): int
  {
    if a >= b then a else b
  }

  /** `Math.floor`. */
  function Floor(x: real): (n: int)
    ensures n as real <= x < n as real + 1.0
  {
    x.Floor
  }

  /** `Math.round`: the nearest integer, a half rounded up (`floor(x + 0.5)`). */
  function Round(x: real): (n: int)
    ensures n as real - 0.5 <= x < n as real + 0.5
  {
    Floor(x + 0.5)
  }

  /**
    * The tile side and the pixel shift of the board (the `translate` of
    * `render`, the subtraction in `doTurn`): both compute the same values.
    */
  datatype Frame = Frame(side: real, left: real, top: real)

  /** A pixel position in the viewport. */
  datatype Point = Point(x: real, y: real)

  /** `side`: the shorter viewport axis over the longer board axis plus two. */
  function Side(vw: real, vh: real, l: Layout): (side: real)
    requires vw > 0.0 && vh > 0.0
    ensures side > 0.0
  {
    Min(vw, vh) / (Max(l.height, l.width) + 2) as real
  }

  /** `tilesFitting`: `floor(v / side)` along one viewport axis. */
  function TilesFitting(v: real, side: real): int
    requires side > 0.0
  {
    Floor(v / side)
  }

  /**
    * The board's shift along one axis, in whole tiles: half the tiles left
    * over beside the board, rounded; the board is centred to within half a tile.
    */
  function OffsetTiles(v: real, side: real, dim: int): (k: int)
    requires side > 0.0
    ensures 2 * k - 1 <= TilesFitting(v, side) - dim < 2 * k + 1
  {
    Round((TilesFitting(v, side) - dim) as real / 2.0)
  }

  /** The frame of a board in a viewport of `vw` by `vh` pixels. */
  function BoardFrame(vw: real, vh: real, l: Layout): (f: Frame)
    requires vw > 0.0 && vh > 0.0
    ensures f.side > 0.0
  {
    var side := Side(vw, vh, l);
    Frame(side, OffsetTiles(vw, side, l.width) as real * side, OffsetTiles(vh, side, l.height) as real * side)
  }

  /** Column (or row) under a pointer coordinate: `floor((p - offset) / side)`. */
  function CellCoord(p: real, offset: real, side: real): int
    requires side > 0.0
  {
    Floor((p - offset) / side)
  }

  /** The `[cx, cy]` that `doTurn` computes for a pointer at `(px, py)`. */
  function PointerCell(f: Frame, p: Point): Position
    requires f.side > 0.0
  {
    Position(CellCoord(p.x, f.left, f.side), CellCoord(p.y, f.top, f.side))
  }

  /** `mouseIndex` in `doTurn`. */
  function MouseIndex(p: Point, vw: real, vh: real, l: Layout): int
    requires vw > 0.0 && vh > 0.0
  {
    var c := PointerCell(BoardFrame(vw, vh, l), p);
    ClickIndex(c.x, c.y, l.width)
  }

  /** Top-left pixel of the square drawn at tile (col, row). */
  function SquareOrigin(f: Frame, t: Position): Point
  {
    Point(f.left + t.x as real * f.side, f.top + t.y as real * f.side)
  }

  /** The point `dx`, `dy` pixels right of and below `o`. */
  function Shift(o: Point, dx: real, dy: real): Point
  {
    Point(o.x + dx, o.y + dy)
  }

  /** Top-left pixel of the square `render` draws for cell `index`. */
  function TileOrigin(l: Layout, vw: real, vh: real, index: int): Point
    requires vw > 0.0 && vh > 0.0 && WellFormed(l) && 0 <= index < |l.cells|
  {
    NonEmptyHasWidth(l);
    SquareOrigin(BoardFrame(vw, vh, l), GetTilePosition(index, l.width))
  }

  /** The cell loop of `render`: where each cell's square is drawn. */
  method TileOrigins(l: Layout, vw: real, vh: real) returns (origins: seq<Point>)
    requires vw > 0.0 && vh > 0.0 && WellFormed(l)
    ensures |origins| == |l.cells|
    ensures forall i :: 0 <= i < |l.cells| ==> origins[i] == TileOrigin(l, vw, vh, i)
  {
    var f := BoardFrame(vw, vh, l);
    if |l.cells| > 0 {
      NonEmptyHasWidth(l);
    }
    origins := [];
    for index := 0 to |l.cells|
      invariant |origins| == index
      invariant forall i :: 0 <= i < index ==> origins[i] == TileOrigin(l, vw, vh, i)
    {
      var t := GetTilePosition(index, l.width);
      origins := origins + [SquareOrigin(f, t)];
    }
  }

  /** x <= y scales by a positive factor (real version, left operand). */
  lemma MulLeft(a: real, b: real, side: real)
    requires a <= b && side > 0.0
    ensures a * side <= b * side
  {
    assert b * side - a * side == (b - a) * side;
  }

  /** x < y scales by a positive factor. */
  lemma MulRight(a: real, b: real, side: real)
    requires a < b && side > 0.0
    ensures a * side < b * side
  {
    assert b * side - a * side == (b - a) * side;
  }

  /** A positive factor can be cancelled from a strict inequality. */
  lemma MulCancel(a: real, b: real, side: real)
    requires side > 0.0 && a * side < b * side
    ensures a < b
  {
    assert b * side - a * side == (b - a) * side;
    assert (b - a) * side > 0.0;
  }

  /** Bounds on a quotient carry over to the dividend. */
  lemma DivBounds(x: real, side: real, n: int)
    requires side > 0.0 && n as real <= x / side < n as real + 1.0
    ensures n as real * side <= x < (n + 1) as real * side
  {
    var t := x / side;
    assert t * side == x;
    MulLeft(n as real, t, side);
    assert (n + 1) as real == n as real + 1.0;
    MulRight(t, (n + 1) as real, side);
    assert t * side < ((n + 1) as real) * side;
  }

  /** One more tile is one more side. */
  lemma SuccTimes(n: int, side: real)
    ensures (n + 1) as real * side == n as real * side + side
  {
  }

  /**
    * The longer board axis plus one tile of margin on each side exactly spans
    * the shorter viewport axis.
    */
  lemma SideSpansShorterAxis(vw: real, vh: real, l: Layout)
    requires vw > 0.0 && vh > 0.0
    ensures Side(vw, vh, l) * (Max(l.height, l.width) + 2) as real == Min(vw, vh)
  {
  }

  /** `tilesFitting` counts the whole tiles that fit: one more would overflow the axis. */
  lemma TilesFittingBounds(v: real, side: real)
    requires side > 0.0
    ensures TilesFitting(v, side) as real * side <= v < (TilesFitting(v, side) + 1) as real * side
  {
    DivBounds(v, side, TilesFitting(v, side));
  }

  /** The cell coordinate is the tile whose pixel span holds the pointer. */
  lemma CellCoordBounds(p: real, offset: real, side: real)
    requires side > 0.0
    ensures var n := CellCoord(p, offset, side);
      offset + n as real * side <= p < offset + (n + 1) as real * side
  {
    DivBounds(p - offset, side, CellCoord(p, offset, side));
  }

  /** The same bounds, with the end of the tile written as its start plus one side. */
  lemma CellSpan(p: real, offset: real, side: real)
    requires side > 0.0
    ensures var n := CellCoord(p, offset, side);
      offset + n as real * side <= p < offset + n as real * side + side
  {
    CellCoordBounds(p, offset, side);
    SuccTimes(CellCoord(p, offset, side), side);
  }

  /** A span starting at `a * side` can hold an offset below `b * side` only if `a < b`. */
  lemma SpanBelow(a: real, b: real, side: real, e: real)
    requires side > 0.0 && a * side <= e < b * side
    ensures a < b
  {
    MulCancel(a, b, side);
  }

  /** Distinct tiles have disjoint pixel spans: one offset lies in one tile only. */
  lemma SameSpan(n: int, k: int, side: real, e: real)
    requires side > 0.0
    requires n as real * side <= e < (n + 1) as real * side
    requires k as real * side <= e < (k + 1) as real * side
    ensures n == k
  {
    SpanBelow(n as real, (k + 1) as real, side, e);
    SpanBelow(k as real, (n + 1) as real, side, e);
  }

  /**
    * A coordinate `d` pixels into tile `k` of an axis (with `0 <= d < side`)
    * maps back to `k`, for every integer `k`, on or off the board.
    */
  lemma CoordOfTile(p: real, offset: real, side: real, k: int, d: real)
    requires side > 0.0 && 0.0 <= d < side
    requires p == offset + k as real * side + d
    ensures CellCoord(p, offset, side) == k
  {
    CellCoordBounds(p, offset, side);
    SuccTimes(k, side);
    SameSpan(CellCoord(p, offset, side), k, side, p - offset);
  }

  /**
    * A pointer inside the square of tile `t` gives back `t`. Nothing bounds
    * the column: a pointer one square past the right edge of the board gives
    * column `width`.
    */
  lemma PointerOnSquare(f: Frame, t: Position, dx: real, dy: real)
    requires f.side > 0.0 && 0.0 <= dx < f.side && 0.0 <= dy < f.side
    ensures PointerCell(f, Shift(SquareOrigin(f, t), dx, dy)) == t
  {
    var p := Shift(SquareOrigin(f, t), dx, dy);
    CoordOfTile(p.x, f.left, f.side, t.x, dx);
    CoordOfTile(p.y, f.top, f.side, t.y, dy);
  }

  /** Conversely, every pointer lies inside the square of the tile it maps to. */
  lemma PointerInSquare(f: Frame, p: Point)
    requires f.side > 0.0
    ensures
      var o := SquareOrigin(f, PointerCell(f, p));
      o.x <= p.x < o.x + f.side && o.y <= p.y < o.y + f.side
  {
    CellSpan(p.x, f.left, f.side);
    CellSpan(p.y, f.top, f.side);
  }

  /** Render and click agree: a click inside the square drawn for a cell selects that cell. */
  lemma ClickOnDrawnTile(l: Layout, vw: real, vh: real, index: int, dx: real, dy: real)
    requires vw > 0.0 && vh > 0.0 && WellFormed(l) && 0 <= index < |l.cells|
    requires 0.0 <= dx < Side(vw, vh, l) && 0.0 <= dy < Side(vw, vh, l)
    ensures MouseIndex(Shift(TileOrigin(l, vw, vh, index), dx, dy), vw, vh, l) == index
  {
    NonEmptyHasWidth(l);
    PointerOnSquare(BoardFrame(vw, vh, l), GetTilePosition(index, l.width), dx, dy);
  }

  /**
    * Conversely, a pointer whose column and row both fall on the board
    * selects an existing cell, and lies inside the square drawn for it.
    */
  lemma ClickSelectsTileUnderPointer(l: Layout, vw: real, vh: real, p: Point)
    requires vw > 0.0 && vh > 0.0 && WellFormed(l)
    requires 0 <= PointerCell(BoardFrame(vw, vh, l), p).x < l.width
    requires 0 <= PointerCell(BoardFrame(vw, vh, l), p).y < l.height
    ensures 0 <= MouseIndex(p, vw, vh, l) < |l.cells|
    ensures
      var o := TileOrigin(l, vw, vh, MouseIndex(p, vw, vh, l));
      var side := Side(vw, vh, l);
      o.x <= p.x < o.x + side && o.y <= p.y < o.y + side
  {
    var f := BoardFrame(vw, vh, l);
    var c := PointerCell(f, p);
    TilePositionOfClick(c.x, c.y, l.width);
    RowMajorInRange(c.x, c.y, l.width, l.height);
    PointerInSquare(f, p);
  }

  /**
    * The click index does not check the column: a pointer in the square just
    * right of the last tile of a row selects the first cell of the next row.
    */
  lemma PastRightEdgeSelectsNextRow(l: Layout, vw: real, vh: real, row: int, dx: real, dy: real)
    requires vw > 0.0 && vh > 0.0
    requires 0.0 <= dx < Side(vw, vh, l) && 0.0 <= dy < Side(vw, vh, l)
    ensures
      var p := Shift(SquareOrigin(BoardFrame(vw, vh, l), Position(l.width, row)), dx, dy);
      PointerCell(BoardFrame(vw, vh, l), p).x == l.width
      && MouseIndex(p, vw, vh, l) == ClickIndex(0, row + 1, l.width)
  {
    PointerOnSquare(BoardFrame(vw, vh, l), Position(l.width, row), dx, dy);
    ColumnPastEdgeWraps(row, l.width);
  }

  /** A tile of an in-range column and row has an index of an existing cell. */
  lemma RowMajorInRange(col: int, row: int, width: nat, height: nat)
    requires 0 <= col < width && 0 <= row < height
    ensures 0 <= ClickIndex(col, row, width) < width * height
  {
    AtLeastOneMultiple(height - row, width);
    assert width * height == row * width + (height - row) * width;
  }
}
