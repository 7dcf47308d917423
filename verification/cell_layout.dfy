/** The row-major cell layout that the buffer's documentation draws: rows of
    `width / cellSize` cells, so that index `x + y * columns` is the cell in
    column `x` of row `y`. The enumeration of the `Grid` module reads rows of
    the pixel width instead; the two agree for one-pixel cells, for a single
    row and for an empty grid, and part ways once cells are wider than one
    pixel and there are at least one column and at least two rows. */
module CellLayout {
  import opened Colors
  import opened Grid
  import DivMod

  function Columns(m: Map): nat
    requires 0 < m.cellSize
  {
    WholeCells(m.width, m.cellSize)
  }

  function Rows(m: Map): nat
    requires 0 < m.cellSize
  {
    WholeCells(m.height, m.cellSize)
  }

  /** The coordinate pair is a cell of the grid. */
  predicate InGrid(m: Map, c: Coords)
    requires 0 < m.cellSize
  {
    c.x < Columns(m) && c.y < Rows(m)
  }

  /** The square drawn for the cell, `cellSize` pixels from `x * cellSize`
      and `y * cellSize`, lies within the pixel area. */
  predicate DrawnInside(m: Map, c: Coords) {
    (c.x + 1) * m.cellSize <= m.width && (c.y + 1) * m.cellSize <= m.height
  }

  /** Every buffer slot in order, paired with its cell coordinates in the
      documented layout and its colour. */
  function CellIterWithCoords(m: Map): (items: seq<(Coords, Color)>)
    requires Valid(m)
    ensures |items| == |m.cells|
    ensures forall k :: 0 <= k < |items| ==> items[k].1 == m.cells[k]
    ensures forall k :: 0 <= k < |items| ==> CoordsToIndex(items[k].0, Columns(m)) == k
    ensures forall k :: 0 <= k < |items| ==> InGrid(m, items[k].0)
  {
    var items := seq(|m.cells|, k requires 0 <= k < |m.cells| =>
                       (IndexToCoords(k, Columns(m)), m.cells[k]));
    assert forall k :: 0 <= k < |items| ==> InGrid(m, items[k].0) by {
      forall k | 0 <= k < |items|
        ensures InGrid(m, items[k].0)
      {
        DivMod.DivBelow(k, Columns(m), Rows(m));
      }
    }
    items
  }

  /** A cell of the grid is drawn inside the pixel area. */
  lemma {:induction false} GridCellDrawnInside(m: Map, c: Coords)
    requires 0 < m.cellSize && InGrid(m, c)
    ensures DrawnInside(m, c)
  {
    CellsFit(c.x + 1, m.width, m.cellSize);
    CellsFit(c.y + 1, m.height, m.cellSize);
  }

  /** `n` whole cells fit in `pixels` when `n` is at most the floor quotient. */
  lemma {:induction false} CellsFit(n: nat, pixels: nat, cellSize: nat)
    requires 0 < cellSize && n <= pixels / cellSize
    ensures n * cellSize <= pixels
  {
  }

  /** Every cell of the grid is listed, exactly at index `x + y * columns`:
      the documented layout is a bijection between buffer slots and cells. */
  lemma {:induction false} EveryCellListed(m: Map, c: Coords)
    requires Valid(m) && InGrid(m, c)
    ensures CoordsToIndex(c, Columns(m)) < |m.cells|
    ensures CellIterWithCoords(m)[CoordsToIndex(c, Columns(m))].0 == c
  {
    var cols, rows := Columns(m), Rows(m);
    var k := CoordsToIndex(c, cols);
    assert k < |m.cells| by {
      assert k < (c.y + 1) * cols;
      if c.y + 1 < rows {
        DivMod.MulAtLeastOne(rows - (c.y + 1), cols);
        assert (rows - (c.y + 1)) * cols == rows * cols - (c.y + 1) * cols;
      }
    }
    CoordsRoundTrip(c, cols);
  }

  /** With one-pixel cells the pixel width is the column count, so the
      enumeration as written follows the documented layout. */
  lemma UnitCellsFollowLayout(m: Map)
    requires Valid(m) && m.cellSize == 1
    ensures IterWithCoords(m) == CellIterWithCoords(m)
  {
  }

  /** A single row of cells fits within the pixel width, so the enumeration
      as written also follows the documented layout there. */
  lemma {:induction false} SingleRowFollowsLayout(m: Map)
    requires Valid(m) && Rows(m) == 1
    ensures IterWithCoords(m) == CellIterWithCoords(m)
  {
    var cols := Columns(m);
    assert |m.cells| == cols;
    forall k | 0 <= k < cols
      ensures IndexToCoords(k, m.width) == IndexToCoords(k, cols)
    {
      CellsFit(cols, m.width, m.cellSize);
      DivMod.MulAtLeastOne(m.cellSize, cols);
      DivMod.DivModUnique(k, m.width, 0, k);
      DivMod.DivModUnique(k, cols, 0, k);
    }
  }

  /** With larger cells, at least one column and at least two rows, the
      enumeration as written puts the first slot of the second row at a
      column past the last one. */
  lemma {:induction false} LargerCellsBreakLayout(m: Map)
    requires Valid(m) && 1 < m.cellSize && 0 < Columns(m) && 2 <= Rows(m)
    ensures Columns(m) < |m.cells|
    ensures IterWithCoords(m)[Columns(m)].0 == Coords(Columns(m), 0)
    ensures !InGrid(m, IterWithCoords(m)[Columns(m)].0)
    ensures CellIterWithCoords(m)[Columns(m)].0 == Coords(0, 1)
  {
    var cols := Columns(m);
    assert cols < |m.cells| by {
      assert |m.cells| == Rows(m) * cols;
      DivMod.MulAtLeastOne(Rows(m) - 1, cols);
    }
    assert IndexToCoords(cols, m.width) == Coords(cols, 0) by {
      assert cols < m.width by {
        CellsFit(cols, m.width, m.cellSize);
        DivMod.MulAtLeastOne(m.cellSize - 1, cols);
      }
      DivMod.DivModUnique(cols, m.width, 0, cols);
    }
    assert IndexToCoords(cols, cols) == Coords(0, 1) by {
      DivMod.DivModUnique(cols, cols, 1, 0);
    }
  }

  /** The program's own map, 900 x 600 pixels in cells of 10: the enumeration
      as written gives slot 90 the coordinates (90, 0), where the documented
      layout has (0, 1). */
  lemma ProgramMapMisplacesSecondRow()
    ensures New(900, 600, 10).Ok?
    ensures IterWithCoords(New(900, 600, 10).built)[90].0 == Coords(90, 0)
    ensures CellIterWithCoords(New(900, 600, 10).built)[90].0 == Coords(0, 1)
  {
  }

  /** On the same map the last slot is enumerated as (899, 5): its square
      starts at pixel 8990, far right of the 900-pixel area. */
  lemma ProgramMapDrawnOffScreen()
    ensures New(900, 600, 10).Ok?
    ensures IterWithCoords(New(900, 600, 10).built)[5399].0 == Coords(899, 5)
    ensures !DrawnInside(New(900, 600, 10).built, Coords(899, 5))
  {
  }
}
