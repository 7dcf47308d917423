/** The map prototype: a flat buffer of colours sized from pixel dimensions
    and a cell size, and the enumeration that pairs each buffer slot with a
    coordinate computed from its index. */
module Grid {
  import opened Colors
  import DivMod

  /** Largest value of the platform's unsigned word (a 64-bit target). */
  const USIZE_MAX: nat := 0xFFFF_FFFF_FFFF_FFFF

  /** Largest value of the platform's signed word, the most bytes one
      allocation may span. */
  const ISIZE_MAX: nat := 0x7FFF_FFFF_FFFF_FFFF

  /** Bytes taken by one colour: four 32-bit channels. */
  const COLOR_BYTES: nat := 16

  predicate IsUsize(n: nat) {
    n <= USIZE_MAX
  }

  datatype Coords = Coords(x: nat, y: nat)

  /** `width` and `height` are in pixels; `cells` holds one colour per cell
      of side `cellSize`. */
  datatype Map = Map(width: nat, height: nat, cellSize: nat, cells: seq<Color>)

  /** Why building a map stops the program. */
  datatype Panic =
    | DivideByZero      // the cell size is zero
    | MultiplyOverflow  // the cell count exceeds the unsigned word (debug build)
    | CapacityOverflow  // the buffer would span more bytes than the signed word

  datatype Built = Ok(built: Map) | Panicked(reason: Panic)

  /** Number of whole cells that fit across `pixels` (floor division). */
  function WholeCells(pixels: nat, cellSize: nat): nat
    requires 0 < cellSize
  {
    pixels / cellSize
  }

  /** Number of whole cells in the pixel area, the length the buffer gets. */
  function CellCount(width: nat, height: nat, cellSize: nat): nat
    requires 0 < cellSize
  {
    WholeCells(width, cellSize) * WholeCells(height, cellSize)
  }

  /** A map whose buffer holds one slot per whole cell of the pixel area. */
  predicate Valid(m: Map) {
    && 0 < m.cellSize
    && |m.cells| == CellCount(m.width, m.height, m.cellSize)
  }

  /** Builds a map of `width` x `height` pixels cut into cells of side
      `cellSize`, every cell white. Division by a zero cell size panics; so
      does (in a debug build) a cell count past the unsigned word, and so
      does allocating a buffer of more bytes than the signed word holds. */
  function New(width: nat, height: nat, cellSize: nat): (r: Built)
    requires IsUsize(width) && IsUsize(height) && IsUsize(cellSize)
    ensures r.Ok? <==> 0 < cellSize && CellCount(width, height, cellSize) * COLOR_BYTES <= ISIZE_MAX
    ensures cellSize == 0 ==> r == Panicked(DivideByZero)
    ensures 0 < cellSize && CellCount(width, height, cellSize) > USIZE_MAX ==>
              r == Panicked(MultiplyOverflow)
    ensures 0 < cellSize && CellCount(width, height, cellSize) <= USIZE_MAX
              && CellCount(width, height, cellSize) * COLOR_BYTES > ISIZE_MAX ==>
              r == Panicked(CapacityOverflow)
    ensures r.Ok? ==> Valid(r.built)
    ensures r.Ok? ==> r.built.width == width && r.built.height == height && r.built.cellSize == cellSize
    ensures r.Ok? ==> |r.built.cells| == (width / cellSize) * (height / cellSize)
    ensures r.Ok? ==> forall i :: 0 <= i < |r.built.cells| ==> r.built.cells[i] == WHITE
  {
    if cellSize == 0 then
      Panicked(DivideByZero)
    else
      var count := CellCount(width, height, cellSize);
      if count > USIZE_MAX then Panicked(MultiplyOverflow)
      else if count * COLOR_BYTES > ISIZE_MAX then Panicked(CapacityOverflow)
      else Ok(Map(width, height, cellSize, seq(count, _ => WHITE)))
  }

  /** The enumeration cannot take `% width` of an index unless the width is
      non-zero or there is no index at all. */
  predicate CanEnumerate(m: Map) {
    0 < m.width || |m.cells| == 0
  }

  /** The coordinate pair the enumeration gives buffer index `i`: the column
      lies inside the width and reading the pair back gives `i`. */
  function IndexToCoords(i: nat, width: nat): (c: Coords)
    requires 0 < width
    ensures c.x < width
    ensures CoordsToIndex(c, width) == i
  {
    Coords(i % width, i / width)
  }

  /** The buffer index a coordinate pair names, reading rows of `width`. */
  function CoordsToIndex(c: Coords, width: nat): nat {
    c.x + c.y * width
  }

  /** Strict lexicographic order on coordinates, row first. */
  predicate ScanBefore(a: Coords, b: Coords) {
    a.y < b.y || (a.y == b.y && a.x < b.x)
  }

  /** Every buffer slot in order, paired with the coordinates of its index
      and the colour stored there. */
  function IterWithCoords(m: Map): (items: seq<(Coords, Color)>)
    requires CanEnumerate(m)
    ensures |items| == |m.cells|
    ensures forall k :: 0 <= k < |items| ==> items[k].1 == m.cells[k]
    ensures forall k :: 0 <= k < |items| ==>
              items[k].0.x < m.width && CoordsToIndex(items[k].0, m.width) == k
  {
    seq(|m.cells|, k requires 0 <= k < |m.cells| => (IndexToCoords(k, m.width), m.cells[k]))
  }

  /** The same enumeration, drained one item at a time in buffer order. The
      clauses after the first repeat the contract of `IterWithCoords`. */
  method CollectWithCoords(m: Map) returns (items: seq<(Coords, Color)>)
    requires CanEnumerate(m)
    ensures items == IterWithCoords(m)
    ensures |items| == |m.cells|
    ensures forall k :: 0 <= k < |items| ==> items[k].1 == m.cells[k]
    ensures forall k :: 0 <= k < |items| ==>
              items[k].0.x < m.width && CoordsToIndex(items[k].0, m.width) == k
  {
    items := [];
    var i := 0;
    while i < |m.cells|
      invariant i <= |m.cells|
      invariant items == IterWithCoords(m)[..i]
    {
      items := items + [(IndexToCoords(i, m.width), m.cells[i])];
      i := i + 1;
    }
  }

  /** Coordinates whose column lies inside the width come back unchanged from
      their index: the two conversions are inverse on that domain. */
  lemma {:induction false} CoordsRoundTrip(c: Coords, width: nat)
    requires 0 < width && c.x < width
    ensures IndexToCoords(CoordsToIndex(c, width), width) == c
  {
    DivMod.DivModUnique(CoordsToIndex(c, width), width, c.y, c.x);
  }

  /** Distinct indices get distinct coordinates, in scan order. */
  lemma {:induction false} IndexOrderIsScanOrder(i: nat, j: nat, width: nat)
    requires 0 < width && i < j
    ensures ScanBefore(IndexToCoords(i, width), IndexToCoords(j, width))
  {
    var a, b := IndexToCoords(i, width), IndexToCoords(j, width);
    DivMod.DivMonotone(i, j, width);
    if a.y == b.y {
      assert a.x + a.y * width == i;
      assert b.x + b.y * width == j;
    }
  }

  /** The enumeration lists coordinates in strictly increasing row-major
      scan order. */
  lemma {:induction false} ItemsInScanOrder(m: Map)
    requires CanEnumerate(m)
    ensures forall i, j :: 0 <= i < j < |IterWithCoords(m)| ==>
              ScanBefore(IterWithCoords(m)[i].0, IterWithCoords(m)[j].0)
  {
    var items := IterWithCoords(m);
    forall i, j | 0 <= i < j < |items|
      ensures ScanBefore(items[i].0, items[j].0)
    {
      IndexOrderIsScanOrder(i, j, m.width);
    }
  }

  /** No enumerated row lies past the row of the last index. */
  lemma {:induction false} RowsBounded(m: Map)
    requires CanEnumerate(m)
    ensures forall k :: 0 <= k < |IterWithCoords(m)| ==>
              IterWithCoords(m)[k].0.y <= (|m.cells| - 1) / m.width
  {
    var items := IterWithCoords(m);
    forall k | 0 <= k < |items|
      ensures items[k].0.y <= (|m.cells| - 1) / m.width
    {
      DivMod.DivMonotone(k, |m.cells| - 1, m.width);
    }
  }

  /** Where building stops: a cell count past the unsigned word overflows
      the multiplication; 2^59 white cells of 16 bytes pass it but exceed
      the signed word as a byte count; one cell fewer is built. */
  lemma NewSizeLimits()
    ensures New(USIZE_MAX, 2, 1) == Panicked(MultiplyOverflow)
    ensures New(0x4000_0000, 0x2000_0000, 1) == Panicked(CapacityOverflow)
    ensures New(0x7FF_FFFF_FFFF_FFFF, 1, 1).Ok?
  {
  }

  /** Every map that `New` builds can be enumerated: a zero pixel width
      leaves no whole column, hence an empty buffer. */
  lemma NewMapsEnumerate(width: nat, height: nat, cellSize: nat)
    requires IsUsize(width) && IsUsize(height) && IsUsize(cellSize)
    requires New(width, height, cellSize).Ok?
    ensures CanEnumerate(New(width, height, cellSize).built)
  {
  }

  /** With zero pixel width the buffer is empty and the enumeration yields
      nothing, so the remainder by zero is never evaluated. */
  lemma ZeroWidthYieldsNothing(height: nat, cellSize: nat)
    requires IsUsize(height) && IsUsize(cellSize) && 0 < cellSize
    ensures New(0, height, cellSize).Ok?
    ensures New(0, height, cellSize).built.cells == []
    ensures IterWithCoords(New(0, height, cellSize).built) == []
  {
  }
}
