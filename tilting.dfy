/**
 * The tilt filter: a box blur whose radius grows with the distance from a
 * line.  Each pixel (x, y) is replaced by the mean of the window of radius
 * ri around it, where ri is |dx (x - x1) + dy (y - y1)| / (2 (width + height))
 * truncated, for the direction (dx, dy) from (x1, y1) to (x2, y2).  The
 * image is overwritten in place, pixel by pixel, but every value is read
 * from the integral image built once, when the filter is created, so the
 * result depends on the pixels at that time only.
 */
module Tilting {
  import opened Integral

  /** dx * xt + dy * yt: the offset (xt, yt) of a pixel from (x1, y1)
      projected onto the direction (dx, dy), times its length. */
  function Projection(dx: int, dy: int, xt: int, yt: int): int {
    dx * xt + dy * yt
  }

  /** The divisor of the projection: 2 (width + height). */
  function Span(width: nat, height: nat): real {
    (width + height) as real * 2.0
  }

  /** The radius at projection p: p / s, its magnitude truncated to an
      integer by the cast. */
  function Radius(p: int, s: real): nat
    requires s > 0.0
  {
    var r := p as real / s;
    if r < 0.0 then (-r).Floor else r.Floor
  }

  /** The radius at pixel (x, y) of img for the line through (x1, y1)
      towards (x2, y2). */
  function TiltRadius(img: Raster, x1: int, y1: int, x2: int, y2: int, x: int, y: int): nat
    requires img.width + img.height > 0
  {
    Radius(Projection(x2 - x1, y2 - y1, x - x1, y - y1), Span(img.width, img.height))
  }

  /** The new value of pixel (x, y): the scaled query over its window. */
  function TiltedPixel(img: Raster, x1: int, y1: int, x2: int, y2: int, x: int, y: int): real
    requires img.width > 0 && img.height > 0
  {
    var ri := TiltRadius(img, x1, y1, x2, y2, x, y);
    WindowMean(img, WindowLow(x, ri), WindowLow(y, ri), WindowHigh(x, ri, img.width - 1), WindowHigh(y, ri, img.height - 1))
  }

  /** The whole tilted image, row by row. */
  function Tilted(img: Raster, x1: int, y1: int, x2: int, y2: int): (r: seq<real>)
    ensures |r| == img.width * img.height
  {
    if img.width == 0 || img.height == 0 then []
    else seq(img.width * img.height,
             k requires 0 <= k < img.width * img.height => TiltedPixel(img, x1, y1, x2, y2, k % img.width, k / img.width))
  }

  /** Cell y * width + x of the tilted image holds the new value of pixel
      (x, y). */
  lemma TiltedAt(img: Raster, x1: int, y1: int, x2: int, y2: int, x: nat, y: nat)
    requires x < img.width && y < img.height
    ensures y * img.width + x < |Tilted(img, x1, y1, x2, y2)|
    ensures Tilted(img, x1, y1, x2, y2)[y * img.width + x] == TiltedPixel(img, x1, y1, x2, y2, x, y)
  {
    CellInRange(x, y, img.width, img.height);
    CellDivMod(x, y, img.width);
  }

  /** The new value of pixel (x, y) is the mean of the old pixels in the
      window of radius ri around it (WindowMeanIsMean: times their number it
      gives their sum, the window being nonempty by TiltWindow). */
  lemma PixelOfWindow(img: Raster, x1: int, y1: int, x2: int, y2: int, x: int, y: int, ri: int,
                      xMin: int, yMin: int, xMax: int, yMax: int)
    requires img.width > 0 && img.height > 0 && ri == TiltRadius(img, x1, y1, x2, y2, x, y)
    requires xMin == WindowLow(x, ri) && xMax == WindowHigh(x, ri, img.width - 1)
    requires yMin == WindowLow(y, ri) && yMax == WindowHigh(y, ri, img.height - 1)
    ensures TiltedPixel(img, x1, y1, x2, y2, x, y) == WindowMean(img, xMin, yMin, xMax, yMax)
  {}

  // ---------------------------------------------------------------------
  // The radius

  function Abs(a: int): nat {
    if a < 0 then -a else a
  }

  /** Dividing an integer by the span in reals negates with it. */
  lemma NegatedQuotient(a: int, s: real)
    requires s > 0.0
    ensures (-a) as real / s == -(a as real / s)
    ensures a < 0 <==> a as real / s < 0.0
  {
    DivMul(a as real, s);
    DivMul((-a) as real, s);
    if a < 0 {
      MulCancel(a as real / s, 0.0, s);
    } else {
      MulCancel(0.0, a as real / s, s);
    }
  }

  /** Multiplying by a positive real cancels in an inequality. */
  lemma MulCancel(u: real, v: real, c: real)
    requires c > 0.0 && u * c <= v * c
    ensures u <= v
  {
    assert (v - u) * c >= 0.0;
  }

  /** In reals, a / s rounded down is the integer quotient a / s. */
  lemma FloorOfQuotient(a: nat, s: int)
    requires s > 0
    ensures (a as real / s as real).Floor == a / s
  {
    var q, x := a / s, a as real / s as real;
    DivMul(a as real, s as real);
    assert (q * s) as real == q as real * s as real;
    assert ((q + 1) * s) as real == (q + 1) as real * s as real;
    MulCancel(q as real, x, s as real);
    assert x < (q + 1) as real by {
      if x >= (q + 1) as real {
        RealMulMono((q + 1) as real, x, s as real);
      }
    }
  }

  /** The radius is the integer quotient of the projection's magnitude by
      2 (width + height). */
  lemma RadiusIsQuotient(p: int, width: nat, height: nat)
    requires width + height > 0
    ensures Radius(p, Span(width, height)) == Abs(p) / (2 * (width + height))
  {
    var s := 2 * (width + height);
    assert Span(width, height) == s as real;
    NegatedQuotient(p, s as real);
    FloorOfQuotient(Abs(p), s);
  }

  /** The radius is 0 exactly where the projection is smaller in magnitude
      than the span, in particular at (x1, y1) itself. */
  lemma RadiusZero(img: Raster, x1: int, y1: int, x2: int, y2: int, x: int, y: int)
    requires img.width + img.height > 0
    ensures TiltRadius(img, x1, y1, x2, y2, x, y) == 0
            <==> Abs(Projection(x2 - x1, y2 - y1, x - x1, y - y1)) < 2 * (img.width + img.height)
    ensures TiltRadius(img, x1, y1, x2, y2, x1, y1) == 0
  {
    RadiusIsQuotient(Projection(x2 - x1, y2 - y1, x - x1, y - y1), img.width, img.height);
    RadiusIsQuotient(Projection(x2 - x1, y2 - y1, 0, 0), img.width, img.height);
  }

  /** Pixels whose projections have equal magnitude get the same radius,
      and a larger magnitude never gives a smaller one. */
  lemma RadiusIsMonotone(p: int, q: int, width: nat, height: nat)
    requires width + height > 0 && Abs(p) <= Abs(q)
    ensures Radius(p, Span(width, height)) <= Radius(q, Span(width, height))
    ensures Abs(p) == Abs(q) ==> Radius(p, Span(width, height)) == Radius(q, Span(width, height))
  {
    RadiusIsQuotient(p, width, height);
    RadiusIsQuotient(q, width, height);
    DivIsMonotone(Abs(p), Abs(q), 2 * (width + height));
  }

  lemma DivIsMonotone(a: nat, b: nat, s: int)
    requires a <= b && s > 0
    ensures a / s <= b / s
  {
    assert a / s * s <= a <= b < (b / s + 1) * s;
  }

  // ---------------------------------------------------------------------
  // Windows and values

  /** The window of every pixel lies inside the table, contains the pixel,
      and is nonempty and at most 2 ri + 1 pixels wide and high. */
  lemma TiltWindow(img: Raster, x1: int, y1: int, x2: int, y2: int, x: int, y: int)
    requires 0 <= x < img.width && 0 <= y < img.height
    ensures var ri := TiltRadius(img, x1, y1, x2, y2, x, y);
            -1 <= WindowLow(x, ri) < x <= WindowHigh(x, ri, img.width - 1) <= img.width - 1 &&
            -1 <= WindowLow(y, ri) < y <= WindowHigh(y, ri, img.height - 1) <= img.height - 1 &&
            1 <= WindowHigh(x, ri, img.width - 1) - WindowLow(x, ri) <= 2 * ri + 1 &&
            1 <= WindowHigh(y, ri, img.height - 1) - WindowLow(y, ri) <= 2 * ri + 1
  {
    var ri := TiltRadius(img, x1, y1, x2, y2, x, y);
    WindowBounds(x, ri, img.width - 1);
    WindowBounds(y, ri, img.height - 1);
  }

  /** With (x1, y1) = (x2, y2) every radius is 0, every window a single
      pixel, and the image comes out unchanged. */
  lemma CoincidentPointsKeepPixel(img: Raster, x1: int, y1: int, x: nat, y: nat)
    requires x < img.width && y < img.height
    ensures TiltedPixel(img, x1, y1, x1, y1, x, y) == img.Pixel(x, y)
  {
    assert Projection(0, 0, x - x1, y - y1) == 0;
    assert TiltRadius(img, x1, y1, x1, y1, x, y) == 0;
    WindowOfRadiusZero(x, img.width - 1);
    WindowOfRadiusZero(y, img.height - 1);
    PixelOfWindow(img, x1, y1, x1, y1, x, y, 0, x - 1, y - 1, x, y);
    SinglePixelWindow(Values(img), x, y);
    assert Factor(1, 1) == 1.0;
  }

  /** Tilting towards the anchor itself leaves the image as it was. */
  lemma CoincidentPointsKeepImage(img: Raster, x1: int, y1: int)
    requires img.Valid()
    ensures Tilted(img, x1, y1, x1, y1) == img.pixels
  {
    var w, h := img.width, img.height;
    var r := Tilted(img, x1, y1, x1, y1);
    if w > 0 && h > 0 {
      forall k | 0 <= k < |r|
        ensures r[k] == img.pixels[k]
      {
        IndexOfCell(k, w);
        var x, y := k % w, k / w;
        assert y < h by {
          if y >= h {
            MulMono(h, y, w);
          }
        }
        TiltedAt(img, x1, y1, x1, y1, x, y);
        CoincidentPointsKeepPixel(img, x1, y1, x, y);
      }
    }
  }

  // ---------------------------------------------------------------------
  // The filter

  class Tilt {
    /** The image, overwritten by Render. */
    const ip: array<real>
    const width: nat
    const height: nat
    const kind: IntegralKind
    /** The integral image of source, built once. */
    const integral: seq<real>
    /** The pixels ip held when the filter was created. */
    ghost const source: Raster

    ghost predicate Valid() {
      source.Valid() && source.width == width && source.height == height &&
      ip.Length == width * height && integral == TableOf(Values(source), width, height)
    }

    constructor (ip: array<real>, width: nat, height: nat, kind: IntegralKind)
      requires ip.Length == width * height
      ensures Valid() && this.ip == ip && this.width == width && this.height == height && this.kind == kind
      ensures source == Raster(width, height, ip[..])
    {
      this.ip := ip;
      this.width := width;
      this.height := height;
      this.kind := kind;
      source := Raster(width, height, ip[..]);
      integral := TableOf(Values(Raster(width, height, ip[..])), width, height);
    }

    /** Replaces every pixel, row by row, by the mean of its window for
        the line through (x1, y1) towards (x2, y2). */
    method Render(x1: int, y1: int, x2: int, y2: int)
      requires Valid()
      modifies ip
      ensures ip[..] == Tilted(source, x1, y1, x2, y2)
    {
      var h := height - 1;
      var s := Span(width, height);
      var dx := x2 - x1;
      var dy := y2 - y1;
      ghost var want := Tilted(source, x1, y1, x2, y2);
      var y := 0;
      ghost var start := 0;
      while y <= h
        invariant 0 <= y <= height && ip.Length == |want| && start == y * width
        invariant ip[..start] == want[..start]
      {
        var yt := y - y1;
        RowFits(y, height, width);
        RenderRow(want, x1, y1, x2, y2, s, dx, dy, y, yt, start);
        NextRowStart(y, width);
        start := start + width;
        y := y + 1;
      }
      WholePrefix(want);
      assert ip[..] == ip[..start];
    }

    /** One pass of the outer loop: row y, which starts at index start,
        written after the rows above it. */
    method RenderRow(ghost want: seq<real>, x1: int, y1: int, x2: int, y2: int, s: real, dx: int, dy: int,
                     y: nat, yt: int, ghost start: int)
      requires Valid() && want == Tilted(source, x1, y1, x2, y2) && ip.Length == |want|
      requires s == Span(width, height) && dx == x2 - x1 && dy == y2 - y1 && yt == y - y1
      requires y < height && start == y * width && start + width <= ip.Length
      requires ip[..start] == want[..start]
      modifies ip
      ensures ip[..start + width] == want[..start + width]
    {
      var w := width - 1;
      var x := 0;
      while x <= w
        invariant 0 <= x <= width && start + width <= ip.Length
        invariant ip[..start + x] == want[..start + x]
      {
        var xt := x - x1;
        ghost var n := start + x;
        var v := PixelValue(x1, y1, x2, y2, s, dx, dy, x, y, xt, yt, n);
        StoreNext(ip, want, n, y * width + x, v);
        x := x + 1;
      }
    }

    /** The body of the inner loop: the new value of pixel (x, y), entry
        n = y * width + x of the tilted image. */
    method PixelValue(x1: int, y1: int, x2: int, y2: int, s: real, dx: int, dy: int,
                      x: nat, y: nat, xt: int, yt: int, ghost n: int) returns (v: real)
      requires Valid() && x < width && y < height && n == y * width + x
      requires s == Span(width, height) && dx == x2 - x1 && dy == y2 - y1 && xt == x - x1 && yt == y - y1
      ensures 0 <= n < |Tilted(source, x1, y1, x2, y2)| && v == Tilted(source, x1, y1, x2, y2)[n]
    {
      v := PixelQuery(x1, y1, x2, y2, s, dx, dy, x, y, xt, yt);
      TiltedAt(source, x1, y1, x2, y2, x, y);
    }

    /** The scaled query for pixel (x, y): the radius from its projection,
        the clamped window of that radius, and the factor 1 / bw / bh. */
    method PixelQuery(x1: int, y1: int, x2: int, y2: int, s: real, dx: int, dy: int,
                      x: nat, y: nat, xt: int, yt: int) returns (v: real)
      requires Valid() && x < width && y < height
      requires s == Span(width, height) && dx == x2 - x1 && dy == y2 - y1 && xt == x - x1 && yt == y - y1
      ensures v == TiltedPixel(source, x1, y1, x2, y2, x, y)
    {
      var w := width - 1;
      var h := height - 1;
      var ri := Radius(Projection(dx, dy, xt, yt), s);
      var yMin := WindowLow(y, ri);
      var yMax := WindowHigh(y, ri, h);
      var bh := yMax - yMin;
      var xMin := WindowLow(x, ri);
      var xMax := WindowHigh(x, ri, w);
      WindowBounds(x, ri, w);
      WindowBounds(y, ri, h);
      var scale := Factor(xMax - xMin, bh);
      v := ScaledSum(integral, Values(source), width, height, xMin, yMin, xMax, yMax, scale);
      IsWindowMean(source, xMin, yMin, xMax, yMax, scale, v);
      PixelOfWindow(source, x1, y1, x2, y2, x, y, ri, xMin, yMin, xMax, yMax);
    }
  }

  /** The factory: a Tilt for float, byte, short and colour images, with
      the matching integral image, and none for any other kind. */
  method Create(ip: array<real>, width: nat, height: nat, kind: ProcessorKind) returns (t: Tilt?)
    requires ip.Length == width * height
    ensures t == null <==> kind == OtherProcessor
    ensures t != null ==> fresh(t) && t.Valid() && t.ip == ip && t.source == Raster(width, height, ip[..])
    ensures t != null ==> Some(t.kind) == IntegralFor(kind)
  {
    var integral := IntegralFor(kind);
    if integral.None? {
      return null;
    }
    t := new Tilt(ip, width, height, integral.value);
  }
}
