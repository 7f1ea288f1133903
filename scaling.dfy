/**
 * Box-filter rescaling through an integral image.
 *
 * Every pixel (x, y) of a width x height target averages the source pixels
 * of one window.  With pixel size p = sourceWidth / width, the window's
 * columns run from round(x * p) to round(x * p + p - 1), written as the
 * query corners (round(x * p) - 1, round(x * p + p - 1)) and clamped to
 * [-1, sourceWidth - 1]; rows likewise.  round rounds half away from zero.
 */
module Scaling {
  import opened Integral

  // ---------------------------------------------------------------------
  // Rounding

  function Signum(a: real): real {
    if a > 0.0 then 1.0 else if a < 0.0 then -1.0 else 0.0
  }

  /** The conversion of a real to an integer: truncation toward zero. */
  function Truncate(a: real): int {
    if a >= 0.0 then a.Floor else -((-a).Floor)
  }

  /** a + signum(a) * 1/2, truncated toward zero. */
  function Round(a: real): int {
    Truncate(a + Signum(a) * 0.5)
  }

  /** Round is the integer within 1/2 of a, a tie going away from zero. */
  lemma RoundIsHalfAwayFromZero(a: real)
    ensures a >= 0.0 ==> a - 0.5 < Round(a) as real <= a + 0.5
    ensures a <= 0.0 ==> a - 0.5 <= Round(a) as real < a + 0.5
  {
    if a < 0.0 {
      assert Round(a) == -((0.5 - a).Floor);
    }
  }

  /** That characterization leaves no other integer. */
  lemma RoundIsUnique(a: real, n: int)
    requires a >= 0.0 ==> a - 0.5 < n as real <= a + 0.5
    requires a <= 0.0 ==> a - 0.5 <= n as real < a + 0.5
    ensures n == Round(a)
  {
    RoundIsHalfAwayFromZero(a);
  }

  lemma RoundOfInteger(k: int)
    ensures Round(k as real) == k
  {
    RoundIsUnique(k as real, k);
  }

  /** round(-a) == -round(a). */
  lemma RoundIsOdd(a: real)
    ensures Round(-a) == -Round(a)
  {
    RoundIsHalfAwayFromZero(a);
    RoundIsUnique(-a, -Round(a));
  }

  lemma RoundIsMonotone(a: real, b: real)
    requires a <= b
    ensures Round(a) <= Round(b)
  {
    RoundIsHalfAwayFromZero(a);
    RoundIsHalfAwayFromZero(b);
  }

  /** Shifting a nonnegative argument by one shifts the result by one. */
  lemma RoundShift(a: real)
    requires a >= 1.0
    ensures Round(a - 1.0) == Round(a) - 1
  {
    RoundIsHalfAwayFromZero(a);
    RoundIsUnique(a - 1.0, Round(a) - 1);
  }

  // ---------------------------------------------------------------------
  // Windows

  /** Source pixels per target pixel along one axis. */
  function PixelSize(sourceSize: nat, size: nat): real
    requires size > 0
  {
    sourceSize as real / size as real
  }

  /** Lower query corner of the target pixel whose edge lies at start in
      source pixels: round(start) - 1, clamped by min(last, max(-1, .)). */
  function LowCorner(start: real, last: int): int {
    Min(last, Max(-1, Round(start) - 1))
  }

  /** Upper query corner of a target column: round(start + size - 1),
      clamped by min(last, max(-1, .)). */
  function HighColumnCorner(start: real, size: real, last: int): int {
    Min(last, Max(-1, Round(start + size - 1.0)))
  }

  /** Upper query corner of a target row, clamped by max(-1, min(last, .)). */
  function HighRowCorner(start: real, size: real, last: int): int {
    Max(-1, Min(last, Round(start + size - 1.0)))
  }

  /** Every corner lies in [-1, last], so the row and column rules agree. */
  lemma CornersInRange(start: real, size: real, last: int)
    requires last >= -1
    ensures -1 <= LowCorner(start, last) <= last
    ensures -1 <= HighColumnCorner(start, size, last) <= last
    ensures HighRowCorner(start, size, last) == HighColumnCorner(start, size, last)
  {}

  /** The left edge of target pixel x in source pixels, x * p, written as
      x steps of p. */
  function Edge(x: nat, p: real): real {
    if x == 0 then 0.0 else Edge(x - 1, p) + p
  }

  lemma {:induction false} EdgeIsProduct(x: nat, p: real)
    ensures Edge(x, p) == x as real * p
  {
    if x > 0 {
      EdgeIsProduct(x - 1, p);
      assert (x - 1) as real * p + p == x as real * p;
    }
  }

  /** The value of target pixel (x, y). */
  function ScaledPixel(img: Raster, width: nat, height: nat, x: nat, y: nat): real
    requires width > 0 && height > 0
  {
    var pixelWidth, pixelHeight := PixelSize(img.width, width), PixelSize(img.height, height);
    WindowMean(img, LowCorner(Edge(x, pixelWidth), img.width - 1), LowCorner(Edge(y, pixelHeight), img.height - 1),
               HighColumnCorner(Edge(x, pixelWidth), pixelWidth, img.width - 1),
               HighRowCorner(Edge(y, pixelHeight), pixelHeight, img.height - 1))
  }

  /** Target pixel (x, y) is the scaled sum over the corners its edges
      give. */
  lemma PixelOfCorners(img: Raster, width: nat, height: nat, x: nat, y: nat, xMin: int, yMin: int, xMax: int, yMax: int)
    requires width > 0 && height > 0
    requires xMin == LowCorner(Edge(x, PixelSize(img.width, width)), img.width - 1)
    requires yMin == LowCorner(Edge(y, PixelSize(img.height, height)), img.height - 1)
    requires xMax == HighColumnCorner(Edge(x, PixelSize(img.width, width)), PixelSize(img.width, width), img.width - 1)
    requires yMax == HighRowCorner(Edge(y, PixelSize(img.height, height)), PixelSize(img.height, height), img.height - 1)
    ensures ScaledPixel(img, width, height, x, y) == WindowMean(img, xMin, yMin, xMax, yMax)
  {}

  /** The whole width x height target, row by row. */
  function Scaled(img: Raster, width: nat, height: nat): (r: seq<real>)
    ensures |r| == width * height
  {
    if width == 0 || height == 0 then []
    else seq(width * height, k requires 0 <= k < width * height => ScaledPixel(img, width, height, k % width, k / width))
  }

  /** Cell y * width + x of the target holds the value of pixel (x, y). */
  lemma ScaledAt(img: Raster, width: nat, height: nat, x: nat, y: nat)
    requires x < width && y < height
    ensures y * width + x < |Scaled(img, width, height)|
    ensures Scaled(img, width, height)[y * width + x] == ScaledPixel(img, width, height, x, y)
  {
    CellInRange(x, y, width, height);
    CellDivMod(x, y, width);
  }

  /** Scaled size for a uniform factor: round(size * factor). */
  function ScaledSize(size: nat, factor: real): int {
    Round(size as real * factor)
  }

  lemma ScaledSizeOfOne(size: nat)
    ensures ScaledSize(size, 1.0) == size
  {
    RoundOfInteger(size);
  }

  /** Pixel size 1: target pixel p gets the one-pixel window (p - 1, p). */
  lemma UnitWindow(p: int, last: int)
    requires 0 <= p <= last
    ensures LowCorner(p as real, last) == p - 1
    ensures HighColumnCorner(p as real, 1.0, last) == p && HighRowCorner(p as real, 1.0, last) == p
  {
    RoundOfInteger(p);
    assert p as real + 1.0 - 1.0 == p as real;
  }

  /** At pixel size size / size = 1 target pixel p, whose left edge is p,
      gets the one-pixel window (p - 1, p). */
  lemma UnitPixelCorners(p: nat, size: nat)
    requires p < size
    ensures LowCorner(Edge(p, PixelSize(size, size)), size - 1) == p - 1
    ensures HighColumnCorner(Edge(p, PixelSize(size, size)), PixelSize(size, size), size - 1) == p
    ensures HighRowCorner(Edge(p, PixelSize(size, size)), PixelSize(size, size), size - 1) == p
  {
    SelfQuotient(size as real);
    EdgeIsProduct(p, 1.0);
    UnitWindow(p, size - 1);
  }

  /** Scaling to the source's own size keeps every pixel's value. */
  lemma SameSizeIsIdentity(img: Raster, x: nat, y: nat)
    requires x < img.width && y < img.height
    ensures ScaledPixel(img, img.width, img.height, x, y) == img.Pixel(x, y)
  {
    UnitPixelCorners(x, img.width);
    UnitPixelCorners(y, img.height);
    PixelOfCorners(img, img.width, img.height, x, y, x - 1, y - 1, x, y);
    SinglePixelWindow(Values(img), x, y);
    assert Factor(1, 1) == 1.0;
  }

  lemma SelfQuotient(a: real)
    requires a != 0.0
    ensures a / a == 1.0
  {}

  /** Scaling a raster to its own size gives back its pixels. */
  lemma SameSizeScaledIsSource(img: Raster)
    requires img.Valid()
    ensures Scaled(img, img.width, img.height) == img.pixels
  {
    var w, h := img.width, img.height;
    var r := Scaled(img, w, h);
    if w > 0 && h > 0 {
      forall k | 0 <= k < |r|
        ensures r[k] == img.pixels[k]
      {
        IndexOfCell(k, w);
        var x, y := k % w, k / w;
        assert y < h by {
          if y >= h {
            MulMono(h, y, w);
          }
        }
        ScaledAt(img, w, h, x, y);
        SameSizeIsIdentity(img, x, y);
      }
    }
  }

  lemma QuotientAtLeastOne(a: real, b: real)
    requires 0.0 < b <= a
    ensures a / b >= 1.0
  {
    DivMul(a, b);
  }

  /** With 0 < size <= sourceSize, the pixel size p is at least 1, the left
      edge of target pixel x < size is nonnegative, and its right edge, the
      next pixel's left edge, stays within the source, meeting its end for
      the last pixel. */
  lemma DownsampledExtent(x: nat, sourceSize: nat, size: nat)
    requires 0 < size <= sourceSize && x < size
    ensures PixelSize(sourceSize, size) >= 1.0
    ensures 0.0 <= Edge(x, PixelSize(sourceSize, size))
    ensures Edge(x + 1, PixelSize(sourceSize, size)) <= sourceSize as real
    ensures x + 1 == size ==> Edge(x + 1, PixelSize(sourceSize, size)) == sourceSize as real
  {
    var p := PixelSize(sourceSize, size);
    QuotientAtLeastOne(sourceSize as real, size as real);
    DivMul(sourceSize as real, size as real);
    EdgeIsProduct(x, p);
    EdgeIsProduct(x + 1, p);
    RealMulMono(0.0, x as real, p);
    RealMulMono((x + 1) as real, size as real, p);
  }

  /** A window whose left edge a >= 0 and pixel size p >= 1 end within
      [0, last]: neither clamp alters a corner, and the window holds at
      least one pixel. */
  lemma DownsampledWindow(a: real, p: real, last: int)
    requires 0.0 <= a && p >= 1.0 && a + p - 1.0 <= last as real
    ensures LowCorner(a, last) == Round(a) - 1
    ensures HighColumnCorner(a, p, last) == Round(a + p - 1.0) == HighRowCorner(a, p, last)
    ensures LowCorner(a, last) < HighColumnCorner(a, p, last)
  {
    RoundOfInteger(0);
    RoundOfInteger(last);
    RoundIsMonotone(0.0, a);
    RoundIsMonotone(a, a + p - 1.0);
    RoundIsMonotone(a + p - 1.0, last as real);
  }

  /** Two neighbouring windows of pixel size p >= 1 abut: the first ends
      where the second begins. */
  lemma WindowsAbut(a: real, p: real, last: int)
    requires 0.0 <= a && p >= 1.0 && a + p + p - 1.0 <= last as real
    ensures HighColumnCorner(a, p, last) == LowCorner(a + p, last)
  {
    DownsampledWindow(a, p, last);
    DownsampledWindow(a + p, p, last);
    RoundShift(a + p);
  }

  /** Downsampled windows tile the source: the first starts at column 0,
      each ends where the next begins, and the last ends at the last
      column. */
  lemma DownsampledWindowsTile(x: nat, sourceSize: nat, size: nat)
    requires 0 < size <= sourceSize && x < size
    ensures var p := PixelSize(sourceSize, size);
            (x == 0 ==> LowCorner(Edge(x, p), sourceSize - 1) == -1) &&
            (x + 1 < size ==> HighColumnCorner(Edge(x, p), p, sourceSize - 1) == LowCorner(Edge(x + 1, p), sourceSize - 1)) &&
            (x + 1 == size ==> HighColumnCorner(Edge(x, p), p, sourceSize - 1) == sourceSize - 1)
  {
    var p := PixelSize(sourceSize, size);
    DownsampledExtent(x, sourceSize, size);
    DownsampledWindow(Edge(x, p), p, sourceSize - 1);
    if x == 0 {
      RoundOfInteger(0);
    }
    if x + 1 < size {
      DownsampledExtent(x + 1, sourceSize, size);
      WindowsAbut(Edge(x, p), p, sourceSize - 1);
    }
    if x + 1 == size {
      RoundOfInteger(sourceSize - 1);
    }
  }

  /** A downsampled pixel is the scaled query of a nonempty window, so by
      WindowMeanIsMean the mean of the source pixels there. */
  lemma DownsampledPixelIsMean(img: Raster, width: nat, height: nat, x: nat, y: nat,
                               xMin: int, yMin: int, xMax: int, yMax: int)
    requires 0 < width <= img.width && 0 < height <= img.height
    requires x < width && y < height
    requires xMin == LowCorner(Edge(x, PixelSize(img.width, width)), img.width - 1)
    requires yMin == LowCorner(Edge(y, PixelSize(img.height, height)), img.height - 1)
    requires xMax == HighColumnCorner(Edge(x, PixelSize(img.width, width)), PixelSize(img.width, width), img.width - 1)
    requires yMax == HighRowCorner(Edge(y, PixelSize(img.height, height)), PixelSize(img.height, height), img.height - 1)
    ensures xMax - xMin >= 1 && yMax - yMin >= 1
    ensures ScaledPixel(img, width, height, x, y) == WindowMean(img, xMin, yMin, xMax, yMax)
  {
    var pixelWidth, pixelHeight := PixelSize(img.width, width), PixelSize(img.height, height);
    assert xMax - xMin >= 1 && yMax - yMin >= 1 by {
      DownsampledExtent(x, img.width, width);
      DownsampledExtent(y, img.height, height);
      DownsampledWindow(Edge(x, pixelWidth), pixelWidth, img.width - 1);
      DownsampledWindow(Edge(y, pixelHeight), pixelHeight, img.height - 1);
    }
    PixelOfCorners(img, width, height, x, y, xMin, yMin, xMax, yMax);
  }


  /** Upsampling can leave a target pixel without source pixels: a one-pixel
      row scaled to two pixels gives column 1 the empty window (0, 0), where
      the factor 1 / bw / bh divides by zero. */
  lemma UpsampledEmptyWindow()
    ensures PixelSize(1, 2) == 0.5
    ensures LowCorner(Edge(1, 0.5), 0) == 0 && HighColumnCorner(Edge(1, 0.5), 0.5, 0) == 0
  {
    assert Round(0.5) == 1;
    assert Round(0.0) == 0;
  }

  /** Inside the target, the clamped offsets width * min(h, y) and
      min(w, x) address cell y * width + x. */
  lemma ClampedIndex(width: nat, w: int, h: int, x: int, y: int)
    requires 0 <= x <= w && 0 <= y <= h
    ensures width * Min(h, y) + Min(w, x) == y * width + x
  {}

  // ---------------------------------------------------------------------
  // The scaler

  class Scale {
    const ip: Raster
    const kind: IntegralKind
    /** The integral image, built once from ip. */
    const integral: seq<real>

    ghost predicate Valid() {
      ip.Valid() && integral == TableOf(Values(ip), ip.width, ip.height)
    }

    constructor (ip: Raster, kind: IntegralKind)
      requires ip.Valid()
      ensures Valid() && this.ip == ip && this.kind == kind
    {
      this.ip := ip;
      this.kind := kind;
      integral := TableOf(Values(ip), ip.width, ip.height);
    }

    /** A fresh width x height raster, pixel y * width + x holding the scaled
        value of (x, y). */
    method ScaleTo(width: nat, height: nat) returns (target: array<real>)
      requires Valid()
      ensures fresh(target)
      ensures target[..] == Scaled(ip, width, height)
    {
      target := new real[width * height];
      if width == 0 || height == 0 {
        return;
      }
      ghost var want := Scaled(ip, width, height);
      var y := 0;
      ghost var start := 0;
      while y < height
        invariant 0 <= y <= height && target.Length == |want| && start == y * width
        invariant target[..start] == want[..start]
      {
        ScaleRow(target, want, width, height, y, start);
        NextRowStart(y, width);
        start := start + width;
        y := y + 1;
      }
      WholePrefix(want);
      assert target[..] == target[..start];
    }

    /** One pass of the outer loop: row y of the target, which starts at
        index start, written after the rows above it. */
    method ScaleRow(target: array<real>, ghost want: seq<real>, width: nat, height: nat, y: nat, ghost start: int)
      requires Valid() && want == Scaled(ip, width, height) && target.Length == |want|
      requires y < height && start == y * width && target[..start] == want[..start]
      modifies target
      ensures start + width <= target.Length && target[..start + width] == want[..start + width]
    {
      var w := width - 1;
      var h := height - 1;
      var yi := width * Min(h, y);
      var x := 0;
      RowFits(y, height, width);
      while x < width
        invariant 0 <= x <= width && start + width <= target.Length
        invariant target[..start + x] == want[..start + x]
      {
        var xi := Min(w, x);
        ghost var n := start + x;
        var v := PixelValue(width, height, x, y, n);
        ClampedIndex(width, w, h, x, y);
        assert yi + xi == n;
        StoreNext(target, want, n, yi + xi, v);
        x := x + 1;
      }
    }

    /** The body of the inner loop: the value of target pixel (x, y), entry
        n = y * width + x of the target. */
    method PixelValue(width: nat, height: nat, x: nat, y: nat, ghost n: int) returns (v: real)
      requires Valid() && x < width && y < height && n == y * width + x
      ensures 0 <= n < |Scaled(ip, width, height)| && v == Scaled(ip, width, height)[n]
    {
      v := PixelQuery(width, height, x, y);
      ScaledAt(ip, width, height, x, y);
    }

    /** The scaled query of target pixel (x, y), the window's corners
        rounded from the pixel's edges in the source (x * pixelWidth, with
        Edge, and likewise for y). */
    method PixelQuery(width: nat, height: nat, x: nat, y: nat) returns (v: real)
      requires Valid() && x < width && y < height
      ensures v == ScaledPixel(ip, width, height, x, y)
    {
      var pixelWidth := PixelSize(ip.width, width);
      var pixelHeight := PixelSize(ip.height, height);
      var xMinDouble := Edge(x, pixelWidth);
      var yMinDouble := Edge(y, pixelHeight);
      var xMin := LowCorner(xMinDouble, ip.width - 1);
      var xMax := HighColumnCorner(xMinDouble, pixelWidth, ip.width - 1);
      var yMin := LowCorner(yMinDouble, ip.height - 1);
      var yMax := HighRowCorner(yMinDouble, pixelHeight, ip.height - 1);
      CornersInRange(xMinDouble, pixelWidth, ip.width - 1);
      CornersInRange(yMinDouble, pixelHeight, ip.height - 1);
      var scale := Factor(xMax - xMin, yMax - yMin);
      v := ScaledSum(integral, Values(ip), ip.width, ip.height, xMin, yMin, xMax, yMax, scale);
      IsWindowMean(ip, xMin, yMin, xMax, yMax, scale, v);
      PixelOfCorners(ip, width, height, x, y, xMin, yMin, xMax, yMax);
    }

    /** Scaling by a uniform factor: the target is round(width * factor) x
        round(height * factor). */
    method ScaleBy(factor: real) returns (target: array<real>, width: nat, height: nat)
      requires Valid()
      requires ScaledSize(ip.width, factor) >= 0 && ScaledSize(ip.height, factor) >= 0
      ensures fresh(target)
      ensures width == ScaledSize(ip.width, factor) && height == ScaledSize(ip.height, factor)
      ensures target[..] == Scaled(ip, width, height)
    {
      width := ScaledSize(ip.width, factor);
      height := ScaledSize(ip.height, factor);
      target := ScaleTo(width, height);
    }
  }

  /** The factory: a Scale for float, byte, short and colour images, with the
      matching integral image, and none for any other kind. */
  method Create(ip: Raster, kind: ProcessorKind) returns (s: Scale?)
    requires ip.Valid()
    ensures s == null <==> kind == OtherProcessor
    ensures s != null ==> fresh(s) && s.Valid() && s.ip == ip && Some(s.kind) == IntegralFor(kind)
  {
    var integral := IntegralFor(kind);
    if integral.None? {
      return null;
    }
    s := new Scale(ip, integral.value);
  }
}
