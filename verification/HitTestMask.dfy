/** The body's pointer hit test (`render.rs`): a grid of 4-pixel cells over a
    flat vector with a cached bounding box. Rasterisation is any sequence of
    `Mark` calls. Products that the source computes in `u32` wrap here too. */
module HitTesting {
  import opened Prelude

  const CELL: nat := 4
  const TWO_TO_32: nat := 0x1_0000_0000

  /** A pixel box, right and bottom excluded. */
  datatype Box = Box(left: nat, top: nat, right: nat, bottom: nat) {
    predicate Holds(x: int, y: int) {
      left <= x < right && top <= y < bottom
    }
  }

  function Joined(bounds: Option<Box>, cell: Box): Box {
    match bounds
    case Some(b) =>
      Box(Min(b.left, cell.left), Min(b.top, cell.top), Max(b.right, cell.right), Max(b.bottom, cell.bottom))
    case None => cell
  }

  /** A run of set cells `start..end` in one row. */
  datatype Run = Run(row: nat, start: nat, end: nat)

  function DivCeil(n: nat): nat {
    (n + CELL - 1) / CELL
  }

  /** `(index + 1) * 4` in `u32`, clipped to the image extent. */
  function Edge(index: nat, extent: nat): nat {
    Min((index + 1) * CELL % TWO_TO_32, extent)
  }

  /** The value of a mask: which cells of the grid are set, and the cached box. */
  datatype Mask = Mask(width: nat, height: nat, columns: nat, rows: nat, on: set<(int, int)>, bounds: Option<Box>) {

    ghost predicate Shaped() {
      && 1 <= width <= U32_MAX && 1 <= height <= U32_MAX
      && columns == DivCeil(width) && rows == DivCeil(height)
      && (forall column, row :: Cell(column, row) ==> 0 <= column < columns && 0 <= row < rows)
    }

    predicate Cell(column: int, row: int) {
      (column, row) in on
    }

    predicate Opaque(x: int, y: int) {
      0 <= x < width && 0 <= y < height && Cell(x / CELL, y / CELL)
    }

    function RightOf(column: nat): nat { Edge(column, width) }

    function BottomOf(row: nat): nat { Edge(row, height) }

    function RectOf(run: Run): Box
      requires run.end > 0
    {
      Box(run.start * CELL, run.row * CELL, RightOf(run.end - 1), BottomOf(run.row))
    }

    /** No set cell has an edge that wraps: `(index + 1) * 4` reaches 2^32 only
        in the last column or row of an extent above 2^32 - 4. */
    ghost predicate EdgesExact() {
      forall column, row :: Cell(column, row) ==> !EdgeWrapsAt(column, row)
    }

    predicate EdgeWrapsAt(column: int, row: int) {
      RightWraps(column) || BottomWraps(row)
    }

    predicate RightWraps(column: int) {
      width > TWO_TO_32 - CELL && column == columns - 1
    }

    predicate BottomWraps(row: int) {
      height > TWO_TO_32 - CELL && row == rows - 1
    }

    /** `bounds` encloses the set cells and every side is touched by one. */
    ghost predicate BoundsTight() {
      match bounds
      case None => forall column, row :: !Cell(column, row)
      case Some(b) =>
        && (forall column, row :: Cell(column, row) ==>
              b.left <= column * CELL && b.top <= row * CELL && RightOf(column) <= b.right && BottomOf(row) <= b.bottom)
        && (exists column, row :: Cell(column, row) && b.left == column * CELL)
        && (exists column, row :: Cell(column, row) && b.top == row * CELL)
        && (exists column, row :: Cell(column, row) && b.right == RightOf(column))
        && (exists column, row :: Cell(column, row) && b.bottom == BottomOf(row))
    }

    /** `bounds` is the smallest box around the opaque pixels. */
    ghost predicate PixelBox() {
      match bounds
      case None => forall x, y :: !Opaque(x, y)
      case Some(b) =>
        && (forall x, y :: Opaque(x, y) ==> b.Holds(x, y))
        && (exists x, y :: Opaque(x, y) && x == b.left) && (exists x, y :: Opaque(x, y) && y == b.top)
        && (exists x, y :: Opaque(x, y) && x == b.right - 1) && (exists x, y :: Opaque(x, y) && y == b.bottom - 1)
    }

    /** The runs of the cells before (`column`, `row`) in row order, none of
        which can be extended. */
    ghost predicate MaximalRuns(runs: seq<Run>, row: nat, column: nat) {
      && (forall i :: 0 <= i < |runs| ==> RunBefore(runs[i], row, column))
      && (forall i, j :: 0 <= i < j < |runs| ==>
            runs[i].row < runs[j].row || (runs[i].row == runs[j].row && runs[i].end < runs[j].start))
      && (forall c, r :: Cell(c, r) && (r < row || (r == row && c < column)) ==> InSomeRun(runs, c, r))
    }

    ghost predicate RunBefore(run: Run, row: nat, column: nat) {
      && run.start < run.end <= columns && run.row < rows
      && (run.row < row || (run.row == row && run.end <= column))
      && (forall c :: run.start <= c < run.end ==> Cell(c, run.row))
    }

    ghost predicate InSomeRun(runs: seq<Run>, column: int, row: int) {
      exists i :: 0 <= i < |runs| && runs[i].row == row && runs[i].start <= column < runs[i].end
    }

    /** A run of this row ends before `column`, or at it because it is clear. */
    ghost predicate Separated(runs: seq<Run>, row: nat, column: nat) {
      forall i :: 0 <= i < |runs| && runs[i].row == row ==>
        runs[i].end < column || (runs[i].end == column && !Cell(column, row))
    }

    function Rectangles(runs: seq<Run>): (rectangles: seq<Box>)
      requires forall i :: 0 <= i < |runs| ==> runs[i].end > 0
      ensures |rectangles| == |runs|
      ensures forall i :: 0 <= i < |runs| ==> rectangles[i] == RectOf(runs[i])
    {
      seq(|runs|, i requires 0 <= i < |runs| => RectOf(runs[i]))
    }

    /** What a list of opaque rectangles promises the window system. */
    ghost predicate ExactCover(rectangles: seq<Box>) {
      && (forall i :: 0 <= i < |rectangles| ==>
            rectangles[i].left < rectangles[i].right <= width && rectangles[i].top < rectangles[i].bottom <= height)
      && (forall i, j, x, y :: 0 <= i < j < |rectangles| ==> !(rectangles[i].Holds(x, y) && rectangles[j].Holds(x, y)))
      && (forall x, y :: Opaque(x, y) <==> exists i :: 0 <= i < |rectangles| && rectangles[i].Holds(x, y))
    }

    /** The right edge that the grip scan arrives at over the rows
        `first..last`: the largest edge of a row's rightmost set cell. */
    ghost predicate BandEdge(first: nat, last: nat, edge: nat) {
      && (forall column, row :: Rightmost(column, row) && first <= row <= last ==> RightOf(column) <= edge)
      && (edge == 0 || exists column, row :: Rightmost(column, row) && first <= row <= last && RightOf(column) == edge)
    }

    ghost predicate Rightmost(column: int, row: int) {
      column >= 0 && row >= 0 && Cell(column, row) && forall c :: column < c ==> !Cell(c, row)
    }

    /** The right edge in pixels of the set cells in the rows `first..last`. */
    ghost predicate TrueEdge(first: nat, last: nat, edge: nat) {
      && (forall column, row :: Cell(column, row) && first <= row <= last ==> Min((column + 1) * CELL, width) <= edge)
      && (exists column, row :: Cell(column, row) && first <= row <= last && Min((column + 1) * CELL, width) == edge)
    }

    function GripTop(grip: nat): nat
      requires bounds.Some?
    {
      SaturatingSub(bounds.value.bottom, grip)
    }

    /** Said of pixels alone: the pointer's line reaches the lowest opaque pixel, and
        its column the rightmost one in the cell rows whose last line does. */
    ghost predicate InGrip(x: int, y: int, grip: nat) {
      ReachesLowest(y, grip) && ReachesRightmost(x, grip)
    }

    /** No opaque pixel lies `grip` or more below the line `y`. */
    ghost predicate ReachesLowest(y: int, grip: nat) {
      forall x2, y2 :: Opaque(x2, y2) ==> y2 < y + grip
    }

    /** No opaque pixel lies `grip` or more right of the column `x`, in a cell row whose
        last line reaches the lowest opaque pixel. */
    ghost predicate ReachesRightmost(x: int, grip: nat) {
      forall x2, y2 :: Opaque(x2, y2) && ReachesLowest((y2 / CELL + 1) * CELL - 1, grip) ==> x2 < x + grip
    }

    function LastBandRow(): nat
      requires bounds.Some?
    {
      Min(SaturatingSub(bounds.value.bottom, 1) / CELL, SaturatingSub(rows, 1))
    }
  }

  /** Cells at most one step apart, diagonals included. */
  predicate Near(c: int, r: int, column: int, row: int) {
    -1 <= c - column <= 1 && -1 <= r - row <= 1
  }

  // ------------------------------------------------- arithmetic of the grid

  lemma IndexInRange(columns: nat, rows: nat, column: nat, row: nat)
    requires column < columns && row < rows
    ensures row * columns + column < rows * columns
  {
    assert (row + 1) * columns <= rows * columns;
  }

  lemma IndexInjective(columns: nat, c1: nat, r1: nat, c2: nat, r2: nat)
    requires c1 < columns && c2 < columns
    requires r1 * columns + c1 == r2 * columns + c2
    ensures c1 == c2 && r1 == r2
  {
    assert (r1 - r2) * columns == c2 - c1;
    if r1 > r2 {
      ProductAtLeast(r1 - r2, columns);
    } else if r2 > r1 {
      ProductAtLeast(r2 - r1, columns);
    }
  }

  lemma ProductAtLeast(times: nat, columns: nat)
    requires times >= 1
    ensures times * columns >= columns
  {
  }

  lemma EdgeExact(index: nat, extent: nat)
    requires index < DivCeil(extent) && extent <= U32_MAX
    requires extent > TWO_TO_32 - CELL ==> index != DivCeil(extent) - 1
    ensures Edge(index, extent) == Min((index + 1) * CELL, extent)
    ensures index * CELL < Edge(index, extent)
  {
    assert (index + 1) * CELL < TWO_TO_32;
  }

  lemma EdgeWraps(extent: nat)
    requires TWO_TO_32 - CELL < extent <= U32_MAX
    ensures DivCeil(extent) * CELL == TWO_TO_32 && Edge(DivCeil(extent) - 1, extent) == 0
  {
  }

  // ------------------------------------------------------- the three claims

  lemma RunEdges(m: Mask, run: Run, row: nat, column: nat)
    requires m.Shaped() && m.EdgesExact() && m.RunBefore(run, row, column)
    ensures m.RightOf(run.end - 1) == Min(run.end * CELL, m.width)
    ensures m.BottomOf(run.row) == Min((run.row + 1) * CELL, m.height)
    ensures run.start * CELL < m.RightOf(run.end - 1) && run.row * CELL < m.BottomOf(run.row)
  {
    assert m.Cell(run.end - 1, run.row);
    EdgeExact(run.end - 1, m.width);
    EdgeExact(run.row, m.height);
  }

  /** With exact edges a rectangle holds a pixel when its run holds the cell. */
  lemma RectHolds(m: Mask, run: Run, row: nat, column: nat, x: int, y: int)
    requires m.Shaped() && m.EdgesExact() && m.RunBefore(run, row, column)
    ensures m.RectOf(run).Holds(x, y) <==>
              0 <= x < m.width && 0 <= y < m.height && y / CELL == run.row && run.start <= x / CELL < run.end
  {
    RunEdges(m, run, row, column);
  }

  lemma CoverWhenExact(m: Mask, runs: seq<Run>)
    requires m.Shaped() && m.EdgesExact() && m.MaximalRuns(runs, m.rows, 0)
    ensures m.ExactCover(m.Rectangles(runs))
  {
    var rectangles := m.Rectangles(runs);
    forall i | 0 <= i < |runs|
      ensures rectangles[i].left < rectangles[i].right <= m.width &&
              rectangles[i].top < rectangles[i].bottom <= m.height
    {
      RunEdges(m, runs[i], m.rows, 0);
    }
    forall i, j, x, y | 0 <= i < j < |runs|
      ensures !(rectangles[i].Holds(x, y) && rectangles[j].Holds(x, y))
    {
      RectHolds(m, runs[i], m.rows, 0, x, y);
      RectHolds(m, runs[j], m.rows, 0, x, y);
    }
    forall x, y
      ensures m.Opaque(x, y) <==> exists i :: 0 <= i < |rectangles| && rectangles[i].Holds(x, y)
    {
      forall i | 0 <= i < |runs| && rectangles[i].Holds(x, y) ensures m.Opaque(x, y) {
        RectHolds(m, runs[i], m.rows, 0, x, y);
        assert m.RunBefore(runs[i], m.rows, 0);
        assert m.Cell(x / CELL, runs[i].row);
      }
      if m.Opaque(x, y) {
        assert m.InSomeRun(runs, x / CELL, y / CELL);
        var i :| 0 <= i < |runs| && runs[i].row == y / CELL && runs[i].start <= x / CELL < runs[i].end;
        RectHolds(m, runs[i], m.rows, 0, x, y);
        assert rectangles[i].Holds(x, y);
      }
    }
  }

  /** A set cell whose edge wraps is opaque at its first pixel, and no
      rectangle holds that pixel. */
  lemma NoCoverWhenWrapping(m: Mask, runs: seq<Run>, column: nat, row: nat)
    requires m.Shaped() && m.MaximalRuns(runs, m.rows, 0)
    requires m.Cell(column, row)
    requires m.EdgeWrapsAt(column, row)
    ensures !m.ExactCover(m.Rectangles(runs))
  {
    var x, y := column * CELL, row * CELL;
    assert x / CELL == column && y / CELL == row;
    assert m.Opaque(x, y);
    forall i | 0 <= i < |runs| ensures !m.Rectangles(runs)[i].Holds(x, y) {
      var run := runs[i];
      assert m.RunBefore(run, m.rows, 0);
      if m.RectOf(run).Holds(x, y) {
        assert m.BottomOf(run.row) <= (run.row + 1) * CELL;
        assert run.row == row;
        assert run.start <= column < run.end;
        if m.height > TWO_TO_32 - CELL && row == m.rows - 1 {
          EdgeWraps(m.height);
          assert false;
        } else {
          EdgeWraps(m.width);
          assert false;
        }
      }
    }
  }

  /** Exact cover: the rectangles of the maximal runs are non-empty, disjoint,
      inside the image and hold exactly the opaque pixels, if and only if no
      set cell has a wrapping edge; so always up to 2^32 - 4 pixels each way. */
  lemma ExactCoverIff(m: Mask, runs: seq<Run>)
    requires m.Shaped() && m.MaximalRuns(runs, m.rows, 0)
    ensures m.ExactCover(m.Rectangles(runs)) <==> m.EdgesExact()
    ensures m.width <= TWO_TO_32 - CELL && m.height <= TWO_TO_32 - CELL ==> m.ExactCover(m.Rectangles(runs))
  {
    if m.EdgesExact() {
      CoverWhenExact(m, runs);
    } else {
      var column, row :| m.Cell(column, row) && m.EdgeWrapsAt(column, row);
      NoCoverWhenWrapping(m, runs, column, row);
    }
  }

  /** The bounding box in pixels: every opaque pixel is inside and each side
      has an opaque pixel on it, if and only if no set cell's edge wraps. */
  lemma BoundsArePixelBoxIff(m: Mask)
    requires m.Shaped() && m.BoundsTight()
    ensures m.PixelBox() <==> m.EdgesExact()
  {
    if m.EdgesExact() {
      BoundsWhenExact(m);
    } else {
      var column, row :| m.Cell(column, row) && m.EdgeWrapsAt(column, row);
      var x, y := column * CELL, row * CELL;
      assert x / CELL == column && y / CELL == row;
      assert m.Opaque(x, y);
      var c2, r2 :| m.Cell(c2, r2) && m.bounds.value.right == m.RightOf(c2);
      var c3, r3 :| m.Cell(c3, r3) && m.bounds.value.bottom == m.BottomOf(r3);
      EdgeBelowLast(c2, m.width);
      EdgeBelowLast(r3, m.height);
      assert !m.bounds.value.Holds(x, y);
    }
  }

  /** In an extent above 2^32 - 4 no computed edge reaches the last cell. */
  lemma EdgeBelowLast(index: nat, extent: nat)
    requires index < DivCeil(extent) && extent <= U32_MAX
    ensures extent > TWO_TO_32 - CELL ==> Edge(index, extent) <= (DivCeil(extent) - 1) * CELL
  {
    if extent > TWO_TO_32 - CELL {
      EdgeWraps(extent);
    }
  }

  lemma BoundsWhenExact(m: Mask)
    requires m.Shaped() && m.BoundsTight() && m.EdgesExact()
    ensures m.PixelBox()
  {
    match m.bounds
    case None =>
    case Some(b) =>
      forall x, y | m.Opaque(x, y) ensures b.Holds(x, y) {
        CellEdges(m, x / CELL, y / CELL);
      }
      var c0, r0 :| m.Cell(c0, r0) && b.left == c0 * CELL;
      CellEdges(m, c0, r0);
      assert m.Opaque(b.left, r0 * CELL);
      var c1, r1 :| m.Cell(c1, r1) && b.top == r1 * CELL;
      CellEdges(m, c1, r1);
      assert m.Opaque(c1 * CELL, b.top);
      var c2, r2 :| m.Cell(c2, r2) && b.right == m.RightOf(c2);
      CellEdges(m, c2, r2);
      assert m.Opaque(b.right - 1, r2 * CELL);
      var c3, r3 :| m.Cell(c3, r3) && b.bottom == m.BottomOf(r3);
      CellEdges(m, c3, r3);
      assert m.Opaque(c3 * CELL, b.bottom - 1);
  }

  lemma CellEdges(m: Mask, column: int, row: int)
    requires m.Shaped() && m.EdgesExact() && m.Cell(column, row)
    ensures m.RightOf(column) == Min((column + 1) * CELL, m.width) && m.BottomOf(row) == Min((row + 1) * CELL, m.height)
    ensures column * CELL < m.RightOf(column) && row * CELL < m.BottomOf(row)
    ensures forall x, y :: column * CELL <= x < m.RightOf(column) && row * CELL <= y < m.BottomOf(row) ==>
              x / CELL == column && y / CELL == row && m.Opaque(x, y)
  {
    EdgeExact(column, m.width);
    EdgeExact(row, m.height);
  }

  lemma RightmostExists(m: Mask, column: nat, row: nat) returns (right: nat)
    requires m.Shaped() && m.Cell(column, row)
    ensures column <= right && m.Rightmost(right, row)
    decreases m.columns - column
  {
    if c :| column < c && m.Cell(c, row) {
      right := RightmostExists(m, c, row);
    } else {
      right := column;
    }
  }

  /** In a band with a set cell the scan arrives at the true right edge if and
      only if no set cell of the band has a wrapping right edge. */
  lemma BandEdgeIsTrueIff(m: Mask, first: nat, last: nat, edge: nat, c0: nat, r0: nat)
    requires m.Shaped() && m.BandEdge(first, last, edge)
    requires m.Cell(c0, r0) && first <= r0 <= last
    ensures m.TrueEdge(first, last, edge) <==>
              forall column, row :: m.Cell(column, row) && first <= row <= last ==> !m.RightWraps(column)
  {
    if column, row :| m.Cell(column, row) && first <= row <= last && m.RightWraps(column) {
      EdgeWraps(m.width);
      if edge != 0 {
        var c, r :| m.Rightmost(c, r) && first <= r <= last && m.RightOf(c) == edge;
        EdgeBelowLast(c, m.width);
      }
    } else {
      forall column, row | m.Cell(column, row) && first <= row <= last
        ensures Min((column + 1) * CELL, m.width) <= edge
      {
        var right := RightmostExists(m, column, row);
        EdgeExact(right, m.width);
      }
      EdgeExact(c0, m.width);
      var c, r :| m.Rightmost(c, r) && first <= r <= last && m.RightOf(c) == edge;
      EdgeExact(c, m.width);
    }
  }

  /** The scan arrives at an edge other than zero if and only if some row of the
      band ends in a cell whose right edge does not wrap. */
  lemma BandEdgeNonzeroIff(m: Mask, first: nat, last: nat, edge: nat)
    requires m.Shaped() && m.BandEdge(first, last, edge)
    ensures edge != 0
            <==> exists column, row :: m.Rightmost(column, row) && first <= row <= last && !m.RightWraps(column)
  {
    if edge != 0 {
      var c, r :| m.Rightmost(c, r) && first <= r <= last && m.RightOf(c) == edge;
      if m.RightWraps(c) {
        EdgeWraps(m.width);
        assert false;
      }
    }
    if column, row :| m.Rightmost(column, row) && first <= row <= last && !m.RightWraps(column) {
      EdgeExact(column, m.width);
    }
  }

  /** Behind the earlier checks of the grip test, the pointer's row is in the band
      if and only if its bottom edge does not wrap. */
  lemma PointerInBandIff(m: Mask, x: int, y: int, grip: nat)
    requires m.Shaped() && m.BoundsTight() && m.bounds.Some?
    requires m.Opaque(x, y) && y >= m.GripTop(grip)
    ensures m.GripTop(grip) / CELL <= y / CELL
    ensures y / CELL <= m.LastBandRow() <==> !m.BottomWraps(y / CELL)
  {
    var row := y / CELL;
    if m.BottomWraps(row) {
      var c, r :| m.Cell(c, r) && m.bounds.value.bottom == m.BottomOf(r);
      EdgeBelowLast(r, m.height);
    } else {
      EdgeExact(row, m.height);
      assert m.BottomOf(row) <= m.bounds.value.bottom;
    }
  }

  /** Behind those checks, the pointer's row is in the band and the scanned edge is
      the true one, which lies right of the pointer, so that the `band_right != 0`
      test is always true, if and only if neither the pointer's bottom edge nor any
      right edge of the band wraps. */
  lemma GripComparesTrueEdgeIff(m: Mask, x: int, y: int, grip: nat, edge: nat)
    requires m.Shaped() && m.BoundsTight() && m.bounds.Some?
    requires m.Opaque(x, y) && y >= m.GripTop(grip)
    requires m.BandEdge(m.GripTop(grip) / CELL, m.LastBandRow(), edge)
    ensures var first, last := m.GripTop(grip) / CELL, m.LastBandRow();
            y / CELL <= last && edge != 0 && x < edge && m.TrueEdge(first, last, edge)
            <==> !m.BottomWraps(y / CELL)
                 && forall column, row :: m.Cell(column, row) && first <= row <= last ==> !m.RightWraps(column)
  {
    PointerInBandIff(m, x, y, grip);
    if y / CELL <= m.LastBandRow() {
      BandEdgeIsTrueIff(m, m.GripTop(grip) / CELL, m.LastBandRow(), edge, x / CELL, y / CELL);
    }
  }

  /** In particular it always is when no edge wraps. */
  lemma GripComparesTrueEdge(m: Mask, x: int, y: int, grip: nat, edge: nat)
    requires m.Shaped() && m.BoundsTight() && m.EdgesExact()
    requires m.Opaque(x, y) && m.bounds.Some? && y >= m.GripTop(grip)
    requires m.BandEdge(m.GripTop(grip) / CELL, m.LastBandRow(), edge)
    ensures edge != 0 && x < edge && m.TrueEdge(m.GripTop(grip) / CELL, m.LastBandRow(), edge)
  {
    assert !m.EdgeWrapsAt(x / CELL, y / CELL);
    forall column, row | m.Cell(column, row) ensures !m.RightWraps(column) {
      assert !m.EdgeWrapsAt(column, row);
    }
    GripComparesTrueEdgeIff(m, x, y, grip, edge);
  }

  lemma LineInBandIff(m: Mask, y: nat, grip: nat)
    requires m.Shaped() && m.BoundsTight() && m.EdgesExact() && m.bounds.Some?
    ensures y >= m.GripTop(grip) <==> m.ReachesLowest(y, grip)
  {
    BoundsArePixelBoxIff(m);
    var low, lowest :| m.Opaque(low, lowest) && lowest == m.bounds.value.bottom - 1;
  }

  lemma RowInBandIff(m: Mask, x: int, y: int, grip: nat)
    requires m.Shaped() && m.BoundsTight() && m.EdgesExact() && m.bounds.Some? && m.Opaque(x, y)
    ensures m.GripTop(grip) / CELL <= y / CELL <= m.LastBandRow()
            <==> m.ReachesLowest((y / CELL + 1) * CELL - 1, grip)
  {
    LineInBandIff(m, (y / CELL + 1) * CELL - 1, grip);
    CellEdges(m, x / CELL, y / CELL);
  }

  /** The columns of the opaque pixels in the rows end just before the edge. */
  lemma EdgeInPixels(m: Mask, first: nat, last: nat, edge: nat) returns (row: nat)
    requires m.Shaped() && m.TrueEdge(first, last, edge)
    ensures forall x, y :: m.Opaque(x, y) && first <= y / CELL <= last ==> x < edge
    ensures edge > 0 && m.Opaque(edge - 1, row * CELL) && first <= row <= last
  {
    forall x, y | m.Opaque(x, y) && first <= y / CELL <= last ensures x < edge {
      assert Min((x / CELL + 1) * CELL, m.width) <= edge;
    }
    var column, r: nat :| m.Cell(column, r) && first <= r <= last && Min((column + 1) * CELL, m.width) == edge;
    row := r;
    assert (edge - 1) / CELL == column && row * CELL / CELL == row;
  }

  /** When no edge wraps, the answer of the grip test said of pixels alone. */
  lemma GripInPixels(m: Mask, x: int, y: int, grip: nat, edge: nat)
    requires m.Shaped() && m.BoundsTight() && m.EdgesExact() && m.bounds.Some? && m.Opaque(x, y)
    requires m.BandEdge(m.GripTop(grip) / CELL, m.LastBandRow(), edge)
    ensures y >= m.GripTop(grip) && edge != 0 && x >= SaturatingSub(edge, grip) <==> m.InGrip(x, y, grip)
  {
    LineInBandIff(m, y, grip);
    if y >= m.GripTop(grip) {
      GripComparesTrueEdge(m, x, y, grip, edge);
      EdgeReachedIff(m, x, grip, edge);
    }
  }

  lemma EdgeReachedIff(m: Mask, x: nat, grip: nat, edge: nat)
    requires m.Shaped() && m.BoundsTight() && m.EdgesExact() && m.bounds.Some?
    requires m.TrueEdge(m.GripTop(grip) / CELL, m.LastBandRow(), edge)
    ensures x + grip >= edge <==> m.ReachesRightmost(x, grip)
  {
    var row := EdgeInPixels(m, m.GripTop(grip) / CELL, m.LastBandRow(), edge);
    RowInBandIff(m, edge - 1, row * CELL, grip);
    forall x2, y2 | m.Opaque(x2, y2) && m.ReachesLowest((y2 / CELL + 1) * CELL - 1, grip) ensures x2 < edge {
      RowInBandIff(m, x2, y2, grip);
    }
  }

  const LAST_COLUMN: nat := DivCeil(U32_MAX) - 1

  /** A mask as wide as can be, with its first and its last cell marked and
      dilated. */
  const WIDEST := Mask(U32_MAX, CELL, LAST_COLUMN + 1, 1,
                       {(0, 0), (1, 0), (LAST_COLUMN - 1, 0), (LAST_COLUMN as int, 0)},
                       Some(Box(0, 0, LAST_COLUMN * CELL, CELL)))

  /** On it the first pixel passes every earlier check and the scanned edge is
      zero. */
  lemma WidestHasNoEdge(edge: nat)
    requires WIDEST.BandEdge(WIDEST.GripTop(CELL) / CELL, WIDEST.LastBandRow(), edge)
    ensures forall c, r :: WIDEST.Cell(c, r) <==>
              0 <= c <= LAST_COLUMN && r == 0 && (Near(c, r, 0, 0) || Near(c, r, LAST_COLUMN, 0))
    ensures WIDEST.Shaped() && WIDEST.BoundsTight() && WIDEST.Opaque(0, 0) && 0 >= WIDEST.GripTop(CELL)
    ensures edge == 0
  {
    EdgeWraps(U32_MAX);
    assert WIDEST.Cell(0, 0) && WIDEST.Cell(LAST_COLUMN - 1, 0) && WIDEST.Cell(LAST_COLUMN, 0);
    assert WIDEST.RightOf(LAST_COLUMN - 1) == LAST_COLUMN * CELL;
    BandEdgeNonzeroIff(WIDEST, 0, 0, edge);
  }

  // ---------------------------------------------------------- the mask itself

  class HitTestMask {
    const width: nat
    const height: nat
    const columns: nat
    const rows: nat
    const cells: array<bool>
    var bounds: Option<Box>

    ghost function View(): Mask
      reads this, cells
    {
      Mask(width, height, columns, rows, On(), bounds)
    }

    ghost function On(): set<(int, int)>
      reads cells
    {
      set c, r | 0 <= c < columns && 0 <= r < rows && Lit(c, r) :: (c, r)
    }

    /** `cell`: out of the grid reads as clear. */
    predicate Lit(column: nat, row: nat)
      reads cells
    {
      column < columns && row < rows && row * columns + column < cells.Length && cells[row * columns + column]
    }

    ghost predicate Valid()
      reads this, cells
    {
      cells.Length == rows * columns && View().Shaped() && View().BoundsTight()
    }

    /** `empty`: every extent is raised to at least one pixel. */
    constructor (width: nat, height: nat)
      requires width <= U32_MAX && height <= U32_MAX
      ensures Valid() && fresh(cells)
      ensures this.width == Max(width, 1) && this.height == Max(height, 1)
      ensures forall column, row :: !View().Cell(column, row)
    {
      var w, h := Max(width, 1), Max(height, 1);
      this.width, this.height := w, h;
      columns, rows := DivCeil(w), DivCeil(h);
      cells := new bool[DivCeil(h) * DivCeil(w)](_ => false);
      bounds := None;
    }

    method IndexOf(column: nat, row: nat) returns (index: Option<nat>)
      ensures index == if column >= columns || row >= rows then None else Some(row * columns + column)
    {
      if column >= columns || row >= rows {
        return None;
      }
      return Some(row * columns + column);
    }

    method CellAt(column: nat, row: nat) returns (lit: bool)
      ensures lit == Lit(column, row) == View().Cell(column, row)
    {
      var index := IndexOf(column, row);
      lit := index.Some? && index.value < cells.Length && cells[index.value];
    }

    method Mark(column: nat, row: nat)
      requires Valid()
      modifies this`bounds, cells
      ensures Valid()
      ensures forall c, r :: View().Cell(c, r) ==
                (old(View()).Cell(c, r) || (c == column && r == row && column < columns && row < rows))
    {
      var index := IndexOf(column, row);
      if index.None? {
        return;
      }
      IndexInRange(columns, rows, column, row);
      ghost var was := View();
      WriteCell(column, row);
      GrowBounds(was, column, row);
      CellAdded(was, View(), column, row);
    }

    /** The second half of `mark`: the box grows by the cell just set. */
    method GrowBounds(ghost was: Mask, column: nat, row: nat)
      requires cells.Length == rows * columns && column < columns && row < rows
      requires was.Shaped() && was.BoundsTight() && was.(on := On()) == View()
      requires On() == was.on + {(column as int, row as int)}
      modifies this`bounds
      ensures Valid() && On() == old(On())
    {
      var left, top := column * CELL, row * CELL;
      var right := Min((column + 1) * CELL % TWO_TO_32, width);
      var bottom := Min((row + 1) * CELL % TWO_TO_32, height);
      bounds := Some(Joined(bounds, Box(left, top, right, bottom)));
      ghost var now := was.(on := On(), bounds := bounds);
      MarkKeepsBounds(was, now, column, row);
      assert View() == now;
    }

    /** `*cell = true`; no other cell shares the index. */
    method WriteCell(column: nat, row: nat)
      requires column < columns && row < rows && row * columns + column < cells.Length
      modifies cells
      ensures On() == old(On()) + {(column, row)}
    {
      cells[row * columns + column] := true;
      forall c: nat, r: nat | c < columns && r < rows
        ensures Lit(c, r) == (old(Lit(c, r)) || (c == column && r == row))
      {
        if r * columns + c == row * columns + column {
          IndexInjective(columns, c, r, column, row);
        }
      }
    }

    method Contains(x: int, y: int) returns (inside: bool)
      ensures inside == View().Opaque(x, y)
    {
      if x < 0 || y < 0 || x >= width || y >= height {
        return false;
      }
      inside := CellAt(x / CELL, y / CELL);
    }

    /** `self.cells.clone()`, and how `dilate_once` looks a cell up in it. */
    method Snapshot() returns (original: seq<bool>)
      requires cells.Length == rows * columns
      ensures forall c: nat, r: nat :: c < columns && r < rows ==> LitIn(original, c, r) == View().Cell(c, r)
    {
      original := cells[..];
      assert forall c: nat, r: nat :: LitIn(original, c, r) == Lit(c, r);
    }

    predicate LitIn(original: seq<bool>, column: nat, row: nat) {
      column < columns && row < rows && row * columns + column < |original| && original[row * columns + column]
    }

    /** `dilate_once` reads the cells as they were before the first mark. */
    method DilateOnce()
      requires Valid()
      modifies this`bounds, cells
      ensures Valid()
      ensures forall c, r :: 0 <= c < columns && 0 <= r < rows ==>
                (View().Cell(c, r) <==> exists c0, r0 :: old(View()).Cell(c0, r0) && Near(c, r, c0, r0))
    {
      var original := Snapshot();
      ghost var was := View();
      var row := 0;
      while row < rows
        invariant row <= rows && Valid()
        invariant forall c, r :: View().Cell(c, r) <==> Spread(was, row, 0, c, r)
      {
        var column := 0;
        while column < columns
          invariant column <= columns && Valid()
          invariant forall c, r :: View().Cell(c, r) <==> Spread(was, row, column, c, r)
        {
          if LitIn(original, column, row) {
            ghost var before := View();
            MarkAround(column, row);
            SpreadAcross(was, before, View(), row, column);
          } else {
            SpreadSkips(was, View(), row, column);
          }
          column := column + 1;
        }
        SpreadNextRow(was, View(), row);
        row := row + 1;
      }
    }

    /** The two innermost loops of `dilate_once`. */
    method MarkAround(column: nat, row: nat)
      requires Valid() && column < columns && row < rows
      modifies this`bounds, cells
      ensures Valid()
      ensures forall c, r :: View().Cell(c, r) ==
                (old(View()).Cell(c, r) || (Near(c, r, column, row) && 0 <= c < columns && 0 <= r < rows))
    {
      var y := SaturatingSub(row, 1);
      var top, left := SaturatingSub(row, 1), SaturatingSub(column, 1);
      while y <= Min(row + 1, rows - 1)
        invariant top <= y <= Min(row + 1, rows - 1) + 1 && Valid()
        invariant forall c, r :: View().Cell(c, r) ==
                    (old(View()).Cell(c, r) || (left <= c <= Min(column + 1, columns - 1) && top <= r < y))
      {
        var x := SaturatingSub(column, 1);
        while x <= Min(column + 1, columns - 1)
          invariant left <= x <= Min(column + 1, columns - 1) + 1 && Valid()
          invariant forall c, r :: View().Cell(c, r) ==
                      (old(View()).Cell(c, r) || (left <= c <= Min(column + 1, columns - 1) && top <= r < y) ||
                       (left <= c < x && r == y))
        {
          Mark(x, y);
          x := x + 1;
        }
        y := y + 1;
      }
    }

    /** The inner loop of `opaque_rectangles`. */
    method EndOfRun(start: nat, row: nat) returns (column: nat)
      requires View().Shaped() && View().Cell(start, row)
      ensures start < column <= columns
      ensures forall c :: start <= c < column ==> View().Cell(c, row)
      ensures !View().Cell(column, row)
    {
      column := start;
      var lit := true;
      while lit
        invariant start <= column <= columns
        invariant lit == View().Cell(column, row)
        invariant column == start ==> lit
        invariant forall c :: start <= c < column ==> View().Cell(c, row)
        decreases columns - column, lit
      {
        column := column + 1;
        lit := CellAt(column, row);
      }
    }

    method OpaqueRectangles() returns (rectangles: seq<Box>, ghost runs: seq<Run>)
      requires Valid()
      ensures View().MaximalRuns(runs, rows, 0) && rectangles == View().Rectangles(runs)
      ensures View().ExactCover(rectangles) <==> View().EdgesExact()
    {
      rectangles, runs := [], [];
      ghost var m := View();
      var row := 0;
      while row < rows
        invariant row <= rows && View() == m
        invariant m.MaximalRuns(runs, row, 0) && rectangles == m.Rectangles(runs)
      {
        rectangles, runs := RowRectangles(row, rectangles, runs);
        RowDone(m, runs, row);
        row := row + 1;
      }
      ExactCoverIff(m, runs);
    }

    /** The body of the row loop of `opaque_rectangles`. */
    method RowRectangles(row: nat, before: seq<Box>, ghost runsBefore: seq<Run>)
      returns (rectangles: seq<Box>, ghost runs: seq<Run>)
      requires View().Shaped() && row < rows
      requires View().MaximalRuns(runsBefore, row, 0) && before == View().Rectangles(runsBefore)
      ensures View().MaximalRuns(runs, row, columns) && rectangles == View().Rectangles(runs)
    {
      rectangles, runs := before, runsBefore;
      ghost var m := View();
      var column := 0;
      while column < columns
        invariant column <= columns && View() == m
        invariant m.MaximalRuns(runs, row, column) && rectangles == m.Rectangles(runs)
        invariant m.Separated(runs, row, column)
      {
        var lit := CellAt(column, row);
        if !lit {
          ClearSkipped(m, runs, row, column);
          column := column + 1;
        } else {
          var start := column;
          column := EndOfRun(column, row);
          rectangles := rectangles + [Box(start * CELL, row * CELL,
                                          Min(column * CELL % TWO_TO_32, width),
                                          Min((row + 1) * CELL % TWO_TO_32, height))];
          RunAppended(m, runs, Run(row, start, column));
          runs := runs + [Run(row, start, column)];
        }
      }
    }

    /** The inner loop of `contains_resize_grip`. */
    method LastSet(row: nat, ghost m: Mask) returns (last: Option<nat>)
      requires m == View() && m.Shaped()
      ensures last.Some? ==> m.Rightmost(last.value, row)
      ensures last.None? ==> forall c :: !m.Cell(c, row)
    {
      var column := columns;
      while column > 0
        invariant column <= columns && m == View()
        invariant forall c :: column <= c ==> !m.Cell(c, row)
      {
        column := column - 1;
        var lit := CellAt(column, row);
        if lit {
          return Some(column);
        }
      }
      return None;
    }

    method ContainsResizeGrip(x: int, y: int, grip: nat) returns (hit: bool, ghost edge: nat)
      requires Valid() && grip <= U32_MAX
      ensures View().Opaque(x, y) ==>
                bounds.Some? && View().BandEdge(View().GripTop(grip) / CELL, View().LastBandRow(), edge)
      ensures hit <==> View().Opaque(x, y) && y >= View().GripTop(grip) && edge != 0 && x >= SaturatingSub(edge, grip)
      ensures View().EdgesExact() ==> (hit <==> View().Opaque(x, y) && View().InGrip(x, y, grip))
    {
      edge := 0;
      var inside := Contains(x, y);
      if !inside {
        return false, edge;
      }
      var bottom := bounds.value.bottom;
      var gripTop := SaturatingSub(bottom, grip);
      var firstRow := gripTop / CELL;
      var lastRow := Min(SaturatingSub(bottom, 1) / CELL, SaturatingSub(rows, 1));
      var bandRight: nat := 0;
      var row := firstRow;
      ghost var m := View();
      while row <= lastRow
        invariant firstRow <= row && View() == m
        invariant row <= lastRow + 1 || row == firstRow
        invariant BandUpTo(m, firstRow, row, bandRight)
        decreases lastRow + 1 - row
      {
        var column := LastSet(row, m);
        BandStep(m, firstRow, row, bandRight, column);
        if column.Some? {
          bandRight := Max(bandRight, Min((column.value + 1) * CELL % TWO_TO_32, width));
        }
        row := row + 1;
      }
      edge := bandRight;
      if m.EdgesExact() { GripInPixels(m, x, y, grip, edge); }
      if y < gripTop {
        return false, edge;
      }
      hit := bandRight != 0 && x >= SaturatingSub(bandRight, grip);
    }
  }

  /** The grid cells among the marks. */
  ghost predicate MarkedBy(m: Mask, marks: seq<(nat, nat)>, column: int, row: int) {
    0 <= column < m.columns && 0 <= row < m.rows && exists i :: 0 <= i < |marks| && marks[i] == (column, row)
  }

  /** `from_frame` with the triangles already rasterised: the mask holds exactly
      the grid cells within one step of a marked one. */
  method FromMarks(width: nat, height: nat, marks: seq<(nat, nat)>) returns (mask: HitTestMask)
    requires width <= U32_MAX && height <= U32_MAX
    ensures fresh(mask) && fresh(mask.cells) && mask.Valid()
    ensures mask.width == Max(width, 1) && mask.height == Max(height, 1)
    ensures forall c, r :: 0 <= c < mask.columns && 0 <= r < mask.rows ==>
              (mask.View().Cell(c, r) <==>
               exists c0, r0 :: MarkedBy(mask.View(), marks, c0, r0) && Near(c, r, c0, r0))
  {
    mask := new HitTestMask(width, height);
    var i := 0;
    while i < |marks|
      invariant 0 <= i <= |marks| && mask.Valid() && fresh(mask) && fresh(mask.cells)
      invariant forall c, r :: mask.View().Cell(c, r) <==> MarkedBy(mask.View(), marks[..i], c, r)
    {
      ghost var was := mask.View();
      mask.Mark(marks[i].0, marks[i].1);
      MarkedNext(was, mask.View(), marks, i);
      i := i + 1;
    }
    assert marks[..i] == marks;
    ghost var was := mask.View();
    mask.DilateOnce();
    assert forall c, r :: MarkedBy(was, marks, c, r) <==> MarkedBy(mask.View(), marks, c, r);
  }

  lemma MarkedNext(was: Mask, now: Mask, marks: seq<(nat, nat)>, i: nat)
    requires i < |marks| && was.columns == now.columns && was.rows == now.rows
    requires forall c, r :: was.Cell(c, r) <==> MarkedBy(was, marks[..i], c, r)
    requires forall c, r :: now.Cell(c, r) ==
               (was.Cell(c, r) || (c == marks[i].0 && r == marks[i].1 && marks[i].0 < was.columns &&
                                   marks[i].1 < was.rows))
    ensures forall c, r :: now.Cell(c, r) <==> MarkedBy(now, marks[..i + 1], c, r)
  {
    forall c, r ensures now.Cell(c, r) <==> MarkedBy(now, marks[..i + 1], c, r) {
      if MarkedBy(was, marks[..i], c, r) {
        var k :| 0 <= k < i && marks[..i][k] == (c, r);
        assert marks[..i + 1][k] == (c, r);
      }
      assert marks[..i + 1][i] == marks[i];
      if MarkedBy(now, marks[..i + 1], c, r) {
        var k :| 0 <= k < i + 1 && marks[..i + 1][k] == (c, r);
        if k < i {
          assert marks[..i][k] == (c, r);
        }
      }
    }
  }

  /** `BandEdge` over the rows scanned so far. */
  ghost predicate BandUpTo(m: Mask, first: nat, row: nat, edge: nat) {
    && (forall c, r :: m.Rightmost(c, r) && first <= r < row ==> m.RightOf(c) <= edge)
    && (edge == 0 || exists c, r :: m.Rightmost(c, r) && first <= r < row && m.RightOf(c) == edge)
  }

  lemma BandStep(m: Mask, first: nat, row: nat, edge: nat, last: Option<nat>)
    requires m.Shaped() && BandUpTo(m, first, row, edge) && first <= row
    requires last.Some? ==> m.Rightmost(last.value, row)
    requires last.None? ==> forall c :: !m.Cell(c, row)
    ensures BandUpTo(m, first, row + 1, if last.Some? then Max(edge, m.RightOf(last.value)) else edge)
  {
    if last.Some? {
      forall c | m.Rightmost(c, row) ensures c == last.value {
      }
    }
  }

  /** The cells set once every original cell before (`column`, `row`) has been
      spread: the original ones and their neighbours. */
  ghost predicate Spread(was: Mask, row: nat, column: nat, c: int, r: int) {
    0 <= c < was.columns && 0 <= r < was.rows &&
    (was.Cell(c, r) ||
     exists c0, r0 :: was.Cell(c0, r0) && (r0 < row || (r0 == row && c0 < column)) && Near(c, r, c0, r0))
  }

  lemma SpreadAcross(was: Mask, before: Mask, now: Mask, row: nat, column: nat)
    requires was.Cell(column, row)
    requires forall c, r :: before.Cell(c, r) <==> Spread(was, row, column, c, r)
    requires forall c, r :: now.Cell(c, r) ==
               (before.Cell(c, r) || (Near(c, r, column, row) && 0 <= c < was.columns && 0 <= r < was.rows))
    ensures forall c, r :: now.Cell(c, r) <==> Spread(was, row, column + 1, c, r)
  {
  }

  lemma SpreadSkips(was: Mask, now: Mask, row: nat, column: nat)
    requires !was.Cell(column, row)
    requires forall c, r :: now.Cell(c, r) <==> Spread(was, row, column, c, r)
    ensures forall c, r :: now.Cell(c, r) <==> Spread(was, row, column + 1, c, r)
  {
    forall c, r ensures Spread(was, row, column, c, r) <==> Spread(was, row, column + 1, c, r) {
    }
  }

  lemma SpreadNextRow(was: Mask, now: Mask, row: nat)
    requires was.Shaped()
    requires forall c, r :: now.Cell(c, r) <==> Spread(was, row, was.columns, c, r)
    ensures forall c, r :: now.Cell(c, r) <==> Spread(was, row + 1, 0, c, r)
  {
    forall c, r ensures Spread(was, row, was.columns, c, r) <==> Spread(was, row + 1, 0, c, r) {
    }
  }

  lemma CellAdded(was: Mask, now: Mask, column: int, row: int)
    requires now.on == was.on + {(column, row)}
    ensures forall c, r :: now.Cell(c, r) == (was.Cell(c, r) || (c == column && r == row))
  {
    forall c, r ensures now.Cell(c, r) == (was.Cell(c, r) || (c == column && r == row)) {
      assert (c, r) in now.on <==> (c, r) in was.on || (c, r) == (column, row);
    }
  }

  lemma MarkKeepsBounds(was: Mask, now: Mask, column: nat, row: nat)
    requires was.Shaped() && was.BoundsTight() && column < was.columns && row < was.rows
    requires now.on == was.on + {(column as int, row as int)}
    requires now == was.(on := now.on, bounds := now.bounds)
    requires now.bounds ==
             Some(Joined(was.bounds, Box(column * CELL, row * CELL, was.RightOf(column), was.BottomOf(row))))
    ensures now.Shaped() && now.BoundsTight()
  {
    CellAdded(was, now, column, row);
    assert now.Cell(column, row);
  }

  lemma RunAppended(m: Mask, runs: seq<Run>, run: Run)
    requires m.MaximalRuns(runs, run.row, run.start)
    requires run.start < run.end <= m.columns && run.row < m.rows
    requires forall c :: run.start <= c < run.end ==> m.Cell(c, run.row)
    requires m.Separated(runs, run.row, run.start) && !m.Cell(run.end, run.row)
    ensures m.MaximalRuns(runs + [run], run.row, run.end) && m.Separated(runs + [run], run.row, run.end)
  {
    var longer := runs + [run];
    forall c, r | m.Cell(c, r) && (r < run.row || (r == run.row && c < run.end)) ensures m.InSomeRun(longer, c, r) {
      if r == run.row && c >= run.start {
        assert longer[|runs|] == run;
      } else {
        assert m.InSomeRun(runs, c, r);
        var i :| 0 <= i < |runs| && runs[i].row == r && runs[i].start <= c < runs[i].end;
        assert longer[i] == runs[i];
      }
    }
  }

  lemma ClearSkipped(m: Mask, runs: seq<Run>, row: nat, column: nat)
    requires m.MaximalRuns(runs, row, column) && m.Separated(runs, row, column) && !m.Cell(column, row)
    ensures m.MaximalRuns(runs, row, column + 1) && m.Separated(runs, row, column + 1)
  {
  }

  lemma RowDone(m: Mask, runs: seq<Run>, row: nat)
    requires m.Shaped() && m.MaximalRuns(runs, row, m.columns)
    ensures m.MaximalRuns(runs, row + 1, 0)
  {
  }
}
