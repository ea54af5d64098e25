/** Row-major cell indices and the (column, row) tile they are drawn at. */
module Tiles {

  /** The `[x, y]` pair of `getTilePosition`: a column and a row. */
  datatype Position = Position(x: int, y: int)

  /**
    * `getTilePosition`: column `index % width`, row `floor(index / width)`.
    * The renderer calls it only for indices of existing cells, so the index is
    * non-negative and the width positive; there the JavaScript remainder and
    * floor agree with Dafny's `%` and `/`.
    */
  function GetTilePosition(index: int, width: int): (p: Position)
    requires index >= 0 && width > 0
    ensures 0 <= p.x < width && p.y >= 0
    ensures ClickIndex(p.x, p.y, width) == index
  {
    Position(index % width, index / width)
  }

  /** The index a click computes from a column and a row: `cy * width + cx`. */
  function ClickIndex(cx: int, cy: int, width: int): int
  {
    cy * width + cx
  }

  /** For an in-range column, the click index leads back to the same tile. */
  lemma TilePositionOfClick(cx: int, cy: int, width: int)
    requires width > 0 && 0 <= cx < width && cy >= 0
    ensures GetTilePosition(ClickIndex(cx, cy, width), width) == Position(cx, cy)
  {
    var index := ClickIndex(cx, cy, width);
    var q, r := index / width, index % width;
    assert q * width + r == cy * width + cx;
    var d := q - cy;
    assert d * width == cx - r by {
      assert d * width == q * width - cy * width;
    }
    if d >= 1 {
      AtLeastOneMultiple(d, width);
    } else if d <= -1 {
      AtLeastOneMultiple(-d, width);
    }
  }

  /** A positive multiple of a positive number is at least that number. */
  lemma AtLeastOneMultiple(k: int, width: int)
    requires k >= 1 && width > 0
    ensures k * width >= width
  {
    assert k * width == (k - 1) * width + width;
    assert (k - 1) * width >= 0;
  }

  /** Distinct cells are drawn at distinct tiles. */
  lemma TilePositionInjective(i: int, j: int, width: int)
    requires i >= 0 && j >= 0 && width > 0
    requires GetTilePosition(i, width) == GetTilePosition(j, width)
    ensures i == j
  {
  }

  /**
    * The click index does not check the column: one tile past the right edge
    * of a row is the first tile of the next row.
    */
  lemma ColumnPastEdgeWraps(cy: int, width: int)
    ensures ClickIndex(width, cy, width) == ClickIndex(0, cy + 1, width)
  {
  }
}
