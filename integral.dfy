/**
 * Summed-area ("integral") tables over row-major rasters.
 *
 * A table for a W x H raster has (W + 1) x (H + 1) cells stored row by row;
 * cell (i, j) holds the sum of the summed quantity over columns < i and
 * rows < j, so row 0 and column 0 are a zero border.  A rectangle query
 * (xMin, yMin, xMax, yMax), each corner in [-1, dim - 1], stands for the sum
 * over columns xMin + 1 .. xMax and rows yMin + 1 .. yMax.
 */
module Integral {

  function Min(a: int, b: int): int { if a <= b then a else b }
  function Max(a: int, b: int): int { if a >= b then a else b }

  /** A raster of width x height samples, stored row by row. */
  datatype Raster = Raster(width: nat, height: nat, pixels: seq<real>) {
    predicate Valid() { |pixels| == width * height }

    /** The sample at column c, row r (0 outside the raster). */
    function Pixel(c: int, r: int): real {
      if Valid() && 0 <= c < width && 0 <= r < height then
        CellInRange(c, r, width, height);
        pixels[r * width + c]
      else 0.0
    }
  }

  /** The quantity a table accumulates: a raster's samples, their squares, or
      the product of two rasters' samples read at per-raster offsets. */
  datatype Quantity =
    | Values(img: Raster)
    | Squares(img: Raster)
    | Products(imgX: Raster, imgY: Raster, xx: int, yx: int, xy: int, yy: int)

  function Sample(q: Quantity, c: int, r: int): real {
    match q
    case Values(img) => img.Pixel(c, r)
    case Squares(img) => img.Pixel(c, r) * img.Pixel(c, r)
    case Products(x, y, xx, yx, xy, yy) => x.Pixel(c + xx, r + yx) * y.Pixel(c + xy, r + yy)
  }

  /** Sum of the quantity over columns c0 .. c1 - 1 of row r. */
  function RowSum(q: Quantity, r: int, c0: int, c1: int): real
    decreases c1 - c0
  {
    if c1 <= c0 then 0.0 else RowSum(q, r, c0, c1 - 1) + Sample(q, c1 - 1, r)
  }

  /** Sum of the quantity over columns c0 .. c1 - 1 and rows r0 .. r1 - 1. */
  function BoxSum(q: Quantity, c0: int, r0: int, c1: int, r1: int): real
    decreases r1 - r0
  {
    if r1 <= r0 then 0.0 else BoxSum(q, c0, r0, c1, r1 - 1) + RowSum(q, r1 - 1, c0, c1)
  }

  /** What table cell (i, j) stands for. */
  function Prefix(q: Quantity, i: int, j: int): real {
    BoxSum(q, 0, 0, i, j)
  }

  /** The rectangle query by inclusion and exclusion of four table cells. */
  function WindowSum(q: Quantity, xMin: int, yMin: int, xMax: int, yMax: int): real {
    Prefix(q, xMax + 1, yMax + 1) - Prefix(q, xMin + 1, yMax + 1)
      - Prefix(q, xMax + 1, yMin + 1) + Prefix(q, xMin + 1, yMin + 1)
  }

  /** Number of pixels in a window. */
  function Count(xMin: int, yMin: int, xMax: int, yMax: int): int {
    (xMax - xMin) * (yMax - yMin)
  }

  /** The scale factor 1 / bw / bh handed to the scaled query.  Where the
      window is empty the source divides by zero in float arithmetic; the
      model uses 0 there. */
  function Factor(bw: int, bh: int): real {
    if bw == 0 || bh == 0 then 0.0 else 1.0 / (bw as real) / (bh as real)
  }

  lemma DivMul(a: real, b: real)
    requires b != 0.0
    ensures (a / b) * b == a
  {}

  lemma RealMulMono(a: real, b: real, c: real)
    requires a <= b && c >= 0.0
    ensures a * c <= b * c
  {}

  lemma UnitFactor(u: real, v: real)
    requires u > 0.0 && v > 0.0
    ensures (1.0 / u / v) * (u * v) == 1.0
  {
    DivMul(1.0 / u, v);
    DivMul(1.0, u);
    assert (1.0 / u / v) * (u * v) == ((1.0 / u / v) * v) * u;
  }

  /** On a nonempty window the factor is the reciprocal of its area. */
  lemma FactorIsReciprocalArea(bw: int, bh: int)
    requires bw >= 1 && bh >= 1
    ensures Factor(bw, bh) * (bw * bh) as real == 1.0
  {
    UnitFactor(bw as real, bh as real);
    assert (bw * bh) as real == bw as real * bh as real;
  }

  /** Scaling a window's sum s by the factor and multiplying by the area
      gives s back. */
  lemma MeanTimesArea(s: real, bw: int, bh: int)
    requires bw >= 1 && bh >= 1
    ensures (s * Factor(bw, bh)) * (bw * bh) as real == s
  {
    FactorIsReciprocalArea(bw, bh);
    assert (s * Factor(bw, bh)) * (bw * bh) as real == s * (Factor(bw, bh) * (bw * bh) as real);
  }

  /** m is the mean of a sum s over a bw by bh window of c pixels. */
  lemma MeanOfSum(s: real, m: real, bw: int, bh: int, c: int)
    requires bw >= 1 && bh >= 1 && m == ScaledBy(s, Factor(bw, bh)) && c == bw * bh
    ensures m * c as real == s
  {
    MeanTimesArea(s, bw, bh);
  }

  /** t is the table of q over a width x height raster. */
  ghost predicate IsTable(t: seq<real>, q: Quantity, width: nat, height: nat) {
    |t| == (width + 1) * (height + 1) &&
    forall k :: 0 <= k < |t| ==> t[k] == Prefix(q, k % (width + 1), k / (width + 1))
  }

  /** The table of q as a value: what an integral-image object holds. */
  function TableOf(q: Quantity, width: nat, height: nat): (t: seq<real>)
    ensures IsTable(t, q, width, height)
  {
    seq((width + 1) * (height + 1), k requires 0 <= k => Prefix(q, k % (width + 1), k / (width + 1)))
  }

  /** The rectangle query on a row-major table with the given stride and
      number of rows; every corner must lie in [-1, stride - 2] x [-1, rows - 2]. */
  function Query(t: seq<real>, stride: nat, rows: nat, xMin: int, yMin: int, xMax: int, yMax: int): real
    requires |t| == stride * rows
    requires -1 <= xMin < stride - 1 && -1 <= xMax < stride - 1
    requires -1 <= yMin < rows - 1 && -1 <= yMax < rows - 1
  {
    CellInRange(xMax + 1, yMax + 1, stride, rows);
    CellInRange(xMin + 1, yMax + 1, stride, rows);
    CellInRange(xMax + 1, yMin + 1, stride, rows);
    CellInRange(xMin + 1, yMin + 1, stride, rows);
    t[(yMax + 1) * stride + xMax + 1] - t[(yMax + 1) * stride + xMin + 1]
      - t[(yMin + 1) * stride + xMax + 1] + t[(yMin + 1) * stride + xMin + 1]
  }

  // ---------------------------------------------------------------------
  // Index arithmetic

  lemma MulMono(a: int, b: int, w: nat)
    requires a <= b
    ensures a * w <= b * w
  {}

  lemma CellInRange(c: int, r: int, w: nat, h: nat)
    requires 0 <= c < w && 0 <= r < h
    ensures 0 <= r * w + c < w * h
  {
    MulMono(r + 1, h, w);
  }

  /** Every index is its row times the stride plus its column. */
  lemma IndexOfCell(k: int, w: nat)
    requires 0 <= k && w > 0
    ensures k == (k / w) * w + k % w
  {}

  /** Cell (c, r) of a row-major grid with stride w sits at r * w + c. */
  lemma CellDivMod(c: int, r: int, w: nat)
    requires 0 <= c < w && 0 <= r
    ensures (r * w + c) / w == r && (r * w + c) % w == c
  {
    var k := r * w + c;
    var q := k / w;
    if q > r {
      MulMono(r + 1, q, w);
    } else if q < r {
      MulMono(q + 1, r, w);
    }
  }

  // ---------------------------------------------------------------------
  // Properties of the sums

  /** Row 0 and column 0 of every table are zero. */
  lemma {:induction false} PrefixBorder(q: Quantity, i: int, j: int)
    ensures Prefix(q, i, 0) == 0.0 && Prefix(q, 0, j) == 0.0
  {
    BoxEmptyColumns(q, 0, 0, j);
  }

  lemma {:induction false} BoxEmptyColumns(q: Quantity, c: int, r0: int, r1: int)
    ensures BoxSum(q, c, r0, c, r1) == 0.0
    decreases r1 - r0
  {
    if r1 > r0 {
      BoxEmptyColumns(q, c, r0, r1 - 1);
    }
  }

  lemma {:induction false} RowSplit(q: Quantity, r: int, c0: int, c1: int, c2: int)
    requires c0 <= c1 <= c2
    ensures RowSum(q, r, c0, c2) == RowSum(q, r, c0, c1) + RowSum(q, r, c1, c2)
    decreases c2 - c1
  {
    if c2 > c1 {
      RowSplit(q, r, c0, c1, c2 - 1);
    }
  }

  lemma {:induction false} BoxRowSplit(q: Quantity, c0: int, c1: int, r0: int, r1: int, r2: int)
    requires r0 <= r1 <= r2
    ensures BoxSum(q, c0, r0, c1, r2) == BoxSum(q, c0, r0, c1, r1) + BoxSum(q, c0, r1, c1, r2)
    decreases r2 - r1
  {
    if r2 > r1 {
      BoxRowSplit(q, c0, c1, r0, r1, r2 - 1);
    }
  }

  lemma {:induction false} BoxColumnSplit(q: Quantity, c0: int, c1: int, c2: int, r0: int, r1: int)
    requires c0 <= c1 <= c2
    ensures BoxSum(q, c0, r0, c2, r1) == BoxSum(q, c0, r0, c1, r1) + BoxSum(q, c1, r0, c2, r1)
    decreases r1 - r0
  {
    if r1 > r0 {
      BoxColumnSplit(q, c0, c1, c2, r0, r1 - 1);
      RowSplit(q, r1 - 1, c0, c1, c2);
    }
  }

  /** For an ordered window the query is the sum over its pixels. */
  lemma WindowSumIsBoxSum(q: Quantity, xMin: int, yMin: int, xMax: int, yMax: int)
    requires -1 <= xMin <= xMax && -1 <= yMin <= yMax
    ensures WindowSum(q, xMin, yMin, xMax, yMax) == BoxSum(q, xMin + 1, yMin + 1, xMax + 1, yMax + 1)
  {
    var x0, y0, x1, y1 := xMin + 1, yMin + 1, xMax + 1, yMax + 1;
    BoxRowSplit(q, 0, x1, 0, y0, y1);
    BoxColumnSplit(q, 0, x0, x1, y0, y1);
    BoxRowSplit(q, 0, x0, 0, y0, y1);
  }

  /** The recurrence the product table is rebuilt with: a cell is the cell
      above plus the cell to the left plus its own sample minus the cell
      diagonally above-left. */
  lemma PrefixStep(q: Quantity, i: int, j: int)
    requires 0 <= i && 0 <= j
    ensures Prefix(q, i + 1, j + 1) == Prefix(q, i + 1, j) + Prefix(q, i, j + 1) + Sample(q, i, j) - Prefix(q, i, j)
  {
    assert RowSum(q, j, 0, i + 1) == RowSum(q, j, 0, i) + Sample(q, i, j);
  }

  /** The first row and the first column of a table are running sums. */
  lemma PrefixFirstRow(q: Quantity, i: int)
    requires 0 <= i
    ensures Prefix(q, i + 1, 1) == Prefix(q, i, 1) + Sample(q, i, 0)
  {
    PrefixStep(q, i, 0);
    PrefixBorder(q, i, 0);
    PrefixBorder(q, i + 1, 0);
  }

  lemma PrefixFirstColumn(q: Quantity, j: int)
    requires 0 <= j
    ensures Prefix(q, 1, j + 1) == Prefix(q, 1, j) + Sample(q, 0, j)
  {
    PrefixStep(q, 0, j);
    PrefixBorder(q, 0, j);
    PrefixBorder(q, 0, j + 1);
  }

  /** A one-pixel window returns that pixel. */
  lemma SinglePixelWindow(q: Quantity, x: nat, y: nat)
    ensures WindowSum(q, x - 1, y - 1, x, y) == Sample(q, x, y)
  {
    WindowSumIsBoxSum(q, x - 1, y - 1, x, y);
    assert BoxSum(q, x, y, x + 1, y + 1) == RowSum(q, y, x, x + 1);
  }

  /** Cells (i, j) with i <= ow and j <= oh of t, read with stride width + 1,
      hold the prefix sums of q. */
  ghost predicate HoldsPrefix(t: seq<real>, q: Quantity, width: nat, ow: int, oh: int) {
    forall k :: 0 <= k < |t| && k % (width + 1) <= ow && k / (width + 1) <= oh ==>
      t[k] == Prefix(q, k % (width + 1), k / (width + 1))
  }

  /** Querying a table whose cells up to (ow, oh) hold prefix sums answers
      the rectangle query for every window inside [-1, ow - 1] x [-1, oh - 1]. */
  lemma QueryOnPrefix(t: seq<real>, q: Quantity, width: nat, height: nat, ow: int, oh: int,
                      xMin: int, yMin: int, xMax: int, yMax: int)
    requires |t| == (width + 1) * (height + 1) && HoldsPrefix(t, q, width, ow, oh)
    requires ow <= width && oh <= height
    requires -1 <= xMin < ow && -1 <= xMax < ow
    requires -1 <= yMin < oh && -1 <= yMax < oh
    ensures Query(t, width + 1, height + 1, xMin, yMin, xMax, yMax) == WindowSum(q, xMin, yMin, xMax, yMax)
  {
    var w := width + 1;
    CellInRange(xMax + 1, yMax + 1, w, height + 1);
    CellInRange(xMin + 1, yMax + 1, w, height + 1);
    CellInRange(xMax + 1, yMin + 1, w, height + 1);
    CellInRange(xMin + 1, yMin + 1, w, height + 1);
    CellDivMod(xMax + 1, yMax + 1, w);
    CellDivMod(xMin + 1, yMax + 1, w);
    CellDivMod(xMax + 1, yMin + 1, w);
    CellDivMod(xMin + 1, yMin + 1, w);
  }

  /** Querying a table answers the rectangle query of its quantity. */
  lemma QueryIsWindowSum(t: seq<real>, q: Quantity, width: nat, height: nat,
                         xMin: int, yMin: int, xMax: int, yMax: int)
    requires IsTable(t, q, width, height)
    requires -1 <= xMin < width && -1 <= xMax < width
    requires -1 <= yMin < height && -1 <= yMax < height
    ensures Query(t, width + 1, height + 1, xMin, yMin, xMax, yMax) == WindowSum(q, xMin, yMin, xMax, yMax)
  {
    QueryOnPrefix(t, q, width, height, width, height, xMin, yMin, xMax, yMax);
  }

  /** A sum times a scale factor. */
  function ScaledBy(sum: real, scale: real): real {
    sum * scale
  }

  /** The scaled query an integral image answers: the rectangle sum times
      the given scale. */
  method ScaledSum(t: seq<real>, ghost q: Quantity, width: nat, height: nat,
                   xMin: int, yMin: int, xMax: int, yMax: int, scale: real) returns (v: real)
    requires t == TableOf(q, width, height)
    requires -1 <= xMin < width && -1 <= xMax < width
    requires -1 <= yMin < height && -1 <= yMax < height
    ensures v == ScaledBy(WindowSum(q, xMin, yMin, xMax, yMax), scale)
  {
    QueryIsWindowSum(t, q, width, height, xMin, yMin, xMax, yMax);
    v := ScaledBy(Query(t, width + 1, height + 1, xMin, yMin, xMax, yMax), scale);
  }

  /** The scaled query over columns xMin + 1 .. xMax and rows
      yMin + 1 .. yMax: the source sum times 1 / bw / bh. */
  function WindowMean(img: Raster, xMin: int, yMin: int, xMax: int, yMax: int): real {
    ScaledBy(WindowSum(Values(img), xMin, yMin, xMax, yMax), Factor(xMax - xMin, yMax - yMin))
  }

  /** A scaled query with scale 1 / bw / bh is the window's mean value. */
  lemma IsWindowMean(img: Raster, xMin: int, yMin: int, xMax: int, yMax: int, scale: real, v: real)
    requires scale == Factor(xMax - xMin, yMax - yMin)
    requires v == ScaledBy(WindowSum(Values(img), xMin, yMin, xMax, yMax), scale)
    ensures v == WindowMean(img, xMin, yMin, xMax, yMax)
  {}

  /** On a nonempty window the scaled query is the mean: times the number
      of pixels it gives the window's sum. */
  lemma WindowMeanIsMean(img: Raster, xMin: int, yMin: int, xMax: int, yMax: int)
    requires xMax - xMin >= 1 && yMax - yMin >= 1
    ensures WindowMean(img, xMin, yMin, xMax, yMax) * Count(xMin, yMin, xMax, yMax) as real
            == WindowSum(Values(img), xMin, yMin, xMax, yMax)
  {
    MeanOfSum(WindowSum(Values(img), xMin, yMin, xMax, yMax), WindowMean(img, xMin, yMin, xMax, yMax),
              xMax - xMin, yMax - yMin, Count(xMin, yMin, xMax, yMax));
  }

  /** The low corner of the window of the given radius around p, clamped
      to -1. */
  function WindowLow(p: int, radius: int): int {
    Max(-1, p - radius - 1)
  }

  /** The high corner of the window of the given radius around p, clamped
      to last. */
  function WindowHigh(p: int, radius: int, last: int): int {
    Min(last, p + radius)
  }

  /** The window of the given radius around p, clamped to [-1, last] as a
      query corner pair: it covers the pixels lo + 1 .. hi. */
  function Window(p: int, radius: int, last: int): (int, int) {
    (WindowLow(p, radius), WindowHigh(p, radius, last))
  }

  /** A clamped window around a pixel inside [0, last] contains that pixel,
      stays inside the table and is at most 2 * radius + 1 wide. */
  lemma WindowBounds(p: int, radius: int, last: int)
    requires 0 <= p <= last && radius >= 0
    ensures -1 <= WindowLow(p, radius) < p <= WindowHigh(p, radius, last) <= last
    ensures 1 <= WindowHigh(p, radius, last) - WindowLow(p, radius) <= 2 * radius + 1
  {}

  /** Radius 0 gives the one-pixel window. */
  lemma WindowOfRadiusZero(p: int, last: int)
    requires 0 <= p <= last
    ensures WindowLow(p, 0) == p - 1 && WindowHigh(p, 0, last) == p
  {}

  /** Cell (i, j) of a table, addressed as the source does. */
  lemma TableCell(t: seq<real>, q: Quantity, width: nat, height: nat, i: int, j: int)
    requires IsTable(t, q, width, height)
    requires 0 <= i <= width && 0 <= j <= height
    ensures 0 <= j * (width + 1) + i < |t|
    ensures t[j * (width + 1) + i] == Prefix(q, i, j)
    ensures i == 0 || j == 0 ==> t[j * (width + 1) + i] == 0.0
  {
    CellInRange(i, j, width + 1, height + 1);
    CellDivMod(i, j, width + 1);
    PrefixBorder(q, i, j);
  }

  /** Sums agree where the quantities agree sample by sample. */
  lemma {:induction false} RowSumCongruent(q1: Quantity, q2: Quantity, r: int, c0: int, c1: int)
    requires forall c :: c0 <= c < c1 ==> Sample(q1, c, r) == Sample(q2, c, r)
    ensures RowSum(q1, r, c0, c1) == RowSum(q2, r, c0, c1)
    decreases c1 - c0
  {
    if c1 > c0 {
      RowSumCongruent(q1, q2, r, c0, c1 - 1);
    }
  }

  lemma {:induction false} BoxSumCongruent(q1: Quantity, q2: Quantity, c0: int, r0: int, c1: int, r1: int)
    requires forall c, r :: c0 <= c < c1 && r0 <= r < r1 ==> Sample(q1, c, r) == Sample(q2, c, r)
    ensures BoxSum(q1, c0, r0, c1, r1) == BoxSum(q2, c0, r0, c1, r1)
    decreases r1 - r0
  {
    if r1 > r0 {
      BoxSumCongruent(q1, q2, c0, r0, c1, r1 - 1);
      RowSumCongruent(q1, q2, r1 - 1, c0, c1);
    }
  }

  lemma WindowSumCongruent(q1: Quantity, q2: Quantity, xMin: int, yMin: int, xMax: int, yMax: int)
    requires forall c, r :: Sample(q1, c, r) == Sample(q2, c, r)
    ensures WindowSum(q1, xMin, yMin, xMax, yMax) == WindowSum(q2, xMin, yMin, xMax, yMax)
  {
    BoxSumCongruent(q1, q2, 0, 0, xMax + 1, yMax + 1);
    BoxSumCongruent(q1, q2, 0, 0, xMin + 1, yMax + 1);
    BoxSumCongruent(q1, q2, 0, 0, xMax + 1, yMin + 1);
    BoxSumCongruent(q1, q2, 0, 0, xMin + 1, yMin + 1);
  }

  /** sq - 2 t s + n t^2: the sum of (v - t)^2 over n values v with sum s
      and sum of squares sq. */
  function Deviation(sq: real, s: real, n: real, t: real): real {
    sq - 2.0 * t * s + n * t * t
  }

  /** Expanded deviations of two groups of values add up. */
  lemma DeviationSum(a: real, b: real, m: real, ra: real, rb: real, k: real, t: real,
                     sa: real, sb: real, n: real)
    requires Deviation(a, b, m, t) >= 0.0 && Deviation(ra, rb, k, t) >= 0.0
    requires sa == a + ra && sb == b + rb && n == m + k
    ensures Deviation(sa, sb, n, t) >= 0.0
  {
    assert n * t * t == m * t * t + k * t * t;
    assert 2.0 * t * sb == 2.0 * t * b + 2.0 * t * rb;
    assert Deviation(sa, sb, n, t) == Deviation(a, b, m, t) + Deviation(ra, rb, k, t);
  }

  /** The expanded sum of squared deviations from t over a row of pixels is
      nonnegative. */
  lemma {:induction false} RowDeviation(img: Raster, r: int, c0: int, c1: int, t: real)
    requires c0 <= c1
    ensures Deviation(RowSum(Squares(img), r, c0, c1), RowSum(Values(img), r, c0, c1), (c1 - c0) as real, t) >= 0.0
    decreases c1 - c0
  {
    if c1 > c0 {
      RowDeviation(img, r, c0, c1 - 1, t);
      var v := img.Pixel(c1 - 1, r);
      assert Deviation(v * v, v, 1.0, t) >= 0.0 by {
        assert Deviation(v * v, v, 1.0, t) == (v - t) * (v - t);
      }
      DeviationSum(RowSum(Squares(img), r, c0, c1 - 1), RowSum(Values(img), r, c0, c1 - 1),
                   (c1 - 1 - c0) as real, v * v, v, 1.0, t,
                   RowSum(Squares(img), r, c0, c1), RowSum(Values(img), r, c0, c1), (c1 - c0) as real);
    } else {
      assert Deviation(0.0, 0.0, 0.0, t) == 0.0;
    }
  }

  /** The number of pixels in a box, counted row by row like BoxSum. */
  function BoxCount(c0: int, r0: int, c1: int, r1: int): int
    decreases r1 - r0
  {
    if r1 <= r0 then 0 else BoxCount(c0, r0, c1, r1 - 1) + (c1 - c0)
  }

  lemma {:induction false} BoxCountIsArea(c0: int, r0: int, c1: int, r1: int)
    requires r0 <= r1
    ensures BoxCount(c0, r0, c1, r1) == (c1 - c0) * (r1 - r0)
    decreases r1 - r0
  {
    if r1 > r0 {
      BoxCountIsArea(c0, r0, c1, r1 - 1);
    }
  }

  /** The expanded sum of squared deviations from t over a box of pixels is
      nonnegative. */
  lemma {:induction false} BoxDeviation(img: Raster, c0: int, r0: int, c1: int, r1: int, t: real)
    requires c0 <= c1 && r0 <= r1
    ensures Deviation(BoxSum(Squares(img), c0, r0, c1, r1), BoxSum(Values(img), c0, r0, c1, r1),
                      BoxCount(c0, r0, c1, r1) as real, t) >= 0.0
    decreases r1 - r0
  {
    if r1 > r0 {
      BoxDeviation(img, c0, r0, c1, r1 - 1, t);
      RowDeviation(img, r1 - 1, c0, c1, t);
      DeviationSum(BoxSum(Squares(img), c0, r0, c1, r1 - 1), BoxSum(Values(img), c0, r0, c1, r1 - 1),
                   BoxCount(c0, r0, c1, r1 - 1) as real,
                   RowSum(Squares(img), r1 - 1, c0, c1), RowSum(Values(img), r1 - 1, c0, c1), (c1 - c0) as real, t,
                   BoxSum(Squares(img), c0, r0, c1, r1), BoxSum(Values(img), c0, r0, c1, r1),
                   BoxCount(c0, r0, c1, r1) as real);
    } else {
      assert Deviation(0.0, 0.0, 0.0, t) == 0.0;
    }
  }

  /** n times the sum of squared deviations of n values with sum s and sum
      of squares sq: n * sq - s^2. */
  function Spread(n: int, s: real, sq: real): real {
    n as real * sq - s * s
  }

  /** From n > 0 and the expanded deviation at t = s / n: n * sq - s^2 >= 0. */
  lemma VarianceFromDeviation(n: int, s: real, sq: real)
    requires n > 0
    requires Deviation(sq, s, n as real, s / n as real) >= 0.0
    ensures Spread(n, s, sq) >= 0.0
  {
    var m := s / n as real;
    assert s == n as real * m;
    assert n as real * m * m == m * s;
    assert sq - m * s >= 0.0;
    assert n as real * (sq - m * s) >= 0.0;
  }

  /** Cauchy-Schwarz over a nonempty box: n * sum(v^2) >= (sum v)^2. */
  lemma BoxVarianceNonnegative(img: Raster, c0: int, r0: int, c1: int, r1: int)
    requires c0 < c1 && r0 < r1
    ensures Spread((c1 - c0) * (r1 - r0), BoxSum(Values(img), c0, r0, c1, r1), BoxSum(Squares(img), c0, r0, c1, r1)) >= 0.0
  {
    var n := (c1 - c0) * (r1 - r0);
    var s := BoxSum(Values(img), c0, r0, c1, r1);
    MulMono(1, c1 - c0, r1 - r0);
    BoxCountIsArea(c0, r0, c1, r1);
    BoxDeviation(img, c0, r0, c1, r1, s / n as real);
    VarianceFromDeviation(n, s, BoxSum(Squares(img), c0, r0, c1, r1));
  }

  // ---------------------------------------------------------------------
  // Image kinds and row-major filling

  /** The kinds of image processor the factories tell apart. */
  datatype ProcessorKind = FloatProcessor | ByteProcessor | ShortProcessor | ColorProcessor | OtherProcessor

  /** The integral-image class built for an image: double sums for float
      images, long sums for byte and short images, per-channel long sums for
      colour images. */
  datatype IntegralKind = DoubleIntegral | LongIntegral | LongRGBIntegral

  datatype Option<T> = None | Some(value: T)

  /** Which integral image the factories build, tested in the order float,
      byte, short, colour; no integral image (and no object) for any other
      kind. */
  function IntegralFor(kind: ProcessorKind): (r: Option<IntegralKind>)
    ensures r.None? <==> kind == OtherProcessor
    ensures r == Some(LongIntegral) <==> kind == ByteProcessor || kind == ShortProcessor
    ensures r == Some(DoubleIntegral) <==> kind == FloatProcessor
    ensures r == Some(LongRGBIntegral) <==> kind == ColorProcessor
  {
    match kind
    case FloatProcessor => Some(DoubleIntegral)
    case ByteProcessor => Some(LongIntegral)
    case ShortProcessor => Some(LongIntegral)
    case ColorProcessor => Some(LongRGBIntegral)
    case OtherProcessor => None
  }

  /** Row y + 1 of a grid with stride w starts w cells after row y. */
  lemma NextRowStart(y: int, w: int)
    ensures (y + 1) * w == y * w + w
  {}

  /** Row y < height of a grid with stride w ends inside the grid. */
  lemma RowFits(y: int, height: int, w: nat)
    requires 0 <= y < height
    ensures y * w + w <= w * height
  {
    MulMono(y + 1, height, w);
  }

  /** A sequence is its own prefix of full length. */
  lemma WholePrefix(s: seq<real>)
    ensures s[..|s|] == s
  {}

  /** Writes want[n] at index k = n of an array whose first n cells
      already agree with want. */
  method StoreNext(a: array<real>, ghost want: seq<real>, ghost n: int, k: int, v: real)
    requires |want| == a.Length && 0 <= n < a.Length && k == n && v == want[n]
    requires a[..n] == want[..n]
    modifies a
    ensures a[..n + 1] == want[..n + 1]
  {
    a[k] := v;
    assert a[..n + 1] == a[..n] + [v];
    assert want[..n + 1] == want[..n] + [v];
  }
}
