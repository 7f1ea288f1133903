/**
 * Block-wise Pearson correlation between two rasters, accelerated by
 * summed-area tables (mpicbg's BlockPMCC).
 *
 * Five tables are kept: sums and sums of squares of X and of Y, built once,
 * and sums of the products X * Y for the current relative offset of the two
 * rasters, rebuilt by SetOffset.  R and RSignedSquare then evaluate, for
 * every pixel of the overlap, the correlation of the two blocks of the given
 * radius around it from five rectangle queries.
 */
module Correlation {
  import opened Integral

  /** Cell (c, r) comes before the cursor (ci, ri) in row-major order. */
  predicate Before(c: int, r: int, ci: int, ri: int) {
    r < ri || (r == ri && c < ci)
  }

  /** What the first (row) pass stores in cell (i, j): the running sum of
      row j - 1 over its first i pixels; 0 on the border. */
  function RowPrefix(q: Quantity, i: int, j: int): real {
    if i <= 0 || j <= 0 then 0.0 else RowSum(q, j - 1, 0, i)
  }

  /** State of a table, read with stride width + 1, while the row pass is at
      cursor (ci, ri): finished cells hold row sums, the rest is still 0. */
  ghost predicate RowPass(a: seq<real>, q: Quantity, width: nat, ci: int, ri: int) {
    forall k :: 0 <= k < |a| ==>
      a[k] == (if Before(k % (width + 1), k / (width + 1), ci, ri)
               then RowPrefix(q, k % (width + 1), k / (width + 1)) else 0.0)
  }

  /** State of a table while the column pass is at cursor (ci, ri): finished
      cells hold prefix sums, the rest still holds row sums. */
  ghost predicate ColumnPass(a: seq<real>, q: Quantity, width: nat, ci: int, ri: int) {
    forall k :: 0 <= k < |a| ==>
      a[k] == (if Before(k % (width + 1), k / (width + 1), ci, ri)
               then Prefix(q, k % (width + 1), k / (width + 1))
               else RowPrefix(q, k % (width + 1), k / (width + 1)))
  }

  /** The same two states, of the contents of an array. */
  ghost predicate RowPassIn(a: array<real>, q: Quantity, width: nat, ci: int, ri: int)
    reads a
  {
    RowPass(a[..], q, width, ci, ri)
  }

  ghost predicate ColumnPassIn(a: array<real>, q: Quantity, width: nat, ci: int, ri: int)
    reads a
  {
    ColumnPass(a[..], q, width, ci, ri)
  }

  /** Every cell of a (width + 1) x (height + 1) table lies in a row <= height. */
  lemma CellRowBound(k: int, width: nat, height: nat)
    requires 0 <= k < (width + 1) * (height + 1)
    ensures 0 <= k % (width + 1) <= width && 0 <= k / (width + 1) <= height
  {
    if k / (width + 1) > height {
      MulMono(height + 1, k / (width + 1), width + 1);
    }
  }

  /** A fresh (all-zero) table is the row pass before its first cell. */
  lemma RowPassStart(a: seq<real>, q: Quantity, width: nat)
    requires forall k :: 0 <= k < |a| ==> a[k] == 0.0
    ensures RowPass(a, q, width, 1, 1)
  {
  }

  /** Writing the running row sum into cell (i + 1, j) advances the row pass. */
  lemma RowPassStep(a: seq<real>, q: Quantity, width: nat, height: nat, i: int, j: int, v: real)
    requires |a| == (width + 1) * (height + 1)
    requires 0 <= i < width && 1 <= j <= height
    requires RowPass(a, q, width, i + 1, j)
    requires v == RowSum(q, j - 1, 0, i + 1)
    ensures 0 <= j * (width + 1) + i + 1 < |a|
    ensures RowPass(a[j * (width + 1) + i + 1 := v], q, width, i + 2, j)
  {
    var w := width + 1;
    var p := j * w + i + 1;
    CellInRange(i + 1, j, w, height + 1);
    CellDivMod(i + 1, j, w);
    var b := a[p := v];
    forall k | 0 <= k < |b|
      ensures b[k] == (if Before(k % w, k / w, i + 2, j) then RowPrefix(q, k % w, k / w) else 0.0)
    {
      if k != p {
        assert (k % w, k / w) != (i + 1, j) by { IndexOfCell(k, w); }
      }
    }
  }

  /** At the end of a row the cursor moves to column 1 of the next one. */
  lemma RowPassNextRow(a: seq<real>, q: Quantity, width: nat, j: int)
    requires RowPass(a, q, width, width + 1, j)
    ensures RowPass(a, q, width, 1, j + 1)
  {
  }

  /** The finished row pass is the column pass before its first cell. */
  lemma ColumnPassStart(a: seq<real>, q: Quantity, width: nat, height: nat)
    requires |a| == (width + 1) * (height + 1)
    requires RowPass(a, q, width, 1, height + 1)
    ensures ColumnPass(a, q, width, 1, 1)
  {
    forall k | 0 <= k < |a|
      ensures a[k] == (if Before(k % (width + 1), k / (width + 1), 1, 1)
                       then Prefix(q, k % (width + 1), k / (width + 1))
                       else RowPrefix(q, k % (width + 1), k / (width + 1)))
    {
      CellRowBound(k, width, height);
      PrefixBorder(q, k % (width + 1), k / (width + 1));
    }
  }

  /** Adding the cell above to cell (i + 1, j) advances the column pass. */
  lemma ColumnPassStep(a: seq<real>, q: Quantity, width: nat, height: nat, i: int, j: int)
    requires |a| == (width + 1) * (height + 1)
    requires 0 <= i < width && 1 <= j <= height
    requires ColumnPass(a, q, width, i + 1, j)
    ensures 0 <= j * (width + 1) + i + 1 - (width + 1) && j * (width + 1) + i + 1 < |a|
    ensures ColumnPass(a[j * (width + 1) + i + 1 := a[j * (width + 1) + i + 1] + a[j * (width + 1) + i + 1 - (width + 1)]],
                       q, width, i + 2, j)
  {
    var w := width + 1;
    var p := j * w + i + 1;
    CellInRange(i + 1, j, w, height + 1);
    CellDivMod(i + 1, j, w);
    CellDivMod(i + 1, j - 1, w);
    assert p - w == (j - 1) * w + i + 1;
    var b := a[p := a[p] + a[p - w]];
    assert b[p] == Prefix(q, i + 1, j);
    forall k | 0 <= k < |b|
      ensures b[k] == (if Before(k % w, k / w, i + 2, j) then Prefix(q, k % w, k / w) else RowPrefix(q, k % w, k / w))
    {
      if k != p {
        assert (k % w, k / w) != (i + 1, j) by { IndexOfCell(k, w); }
      }
    }
  }

  /** At the end of a row the column pass moves on to the next one. */
  lemma ColumnPassNextRow(a: seq<real>, q: Quantity, width: nat, j: int)
    requires ColumnPass(a, q, width, width + 1, j)
    ensures ColumnPass(a, q, width, 1, j + 1)
  {
    forall k | 0 <= k < |a|
      ensures a[k] == (if Before(k % (width + 1), k / (width + 1), 1, j + 1)
                       then Prefix(q, k % (width + 1), k / (width + 1))
                       else RowPrefix(q, k % (width + 1), k / (width + 1)))
    {
      PrefixBorder(q, k % (width + 1), k / (width + 1));
    }
  }

  /** The finished column pass is the summed-area table. */
  lemma ColumnPassDone(a: seq<real>, q: Quantity, width: nat, height: nat)
    requires |a| == (width + 1) * (height + 1)
    requires ColumnPass(a, q, width, 1, height + 1)
    ensures IsTable(a, q, width, height)
  {
    forall k | 0 <= k < |a|
      ensures a[k] == Prefix(q, k % (width + 1), k / (width + 1))
    {
      CellRowBound(k, width, height);
    }
  }

  lemma SquareSample(img: Raster, c: int, r: int, a: real)
    requires a == img.Pixel(c, r)
    ensures Sample(Squares(img), c, r) == a * a
  {}

  /** The pixels of a width x height raster. */
  predicate HasSize(img: Raster, width: nat, height: nat) {
    img.Valid() && img.width == width && img.height == height
  }

  /** One write of the row pass: cell (i + 1, j) gets the running row sum v. */
  method StoreRowSum(a: array<real>, q: Quantity, width: nat, height: nat, i: int, j: int,
                     index: int, v: real)
    requires a.Length == (width + 1) * (height + 1)
    requires 0 <= i < width && 1 <= j <= height && index == j * (width + 1) + 1 + i
    requires RowPassIn(a, q, width, i + 1, j)
    requires v == RowSum(q, j - 1, 0, i + 1)
    modifies a
    ensures RowPassIn(a, q, width, i + 2, j)
  {
    ghost var a0 := a[..];
    RowPassStep(a0, q, width, height, i, j, v);
    a[index] := v;
    assert a[..] == a0[j * (width + 1) + i + 1 := v];
  }

  /** One step of the column pass: cell (i + 1, j) adds the cell above it. */
  method AddCellAbove(a: array<real>, q: Quantity, width: nat, height: nat, i: int, j: int,
                      index: int, indexAbove: int)
    requires a.Length == (width + 1) * (height + 1)
    requires 0 <= i < width && 1 <= j <= height
    requires index == j * (width + 1) + 1 + i && indexAbove == index - (width + 1)
    requires ColumnPassIn(a, q, width, i + 1, j)
    modifies a
    ensures ColumnPassIn(a, q, width, i + 2, j)
  {
    ghost var a0 := a[..];
    ColumnPassStep(a0, q, width, height, i, j);
    a[index] := a[index] + a[indexAbove];
    assert a[..] == a0[j * (width + 1) + i + 1 := a0[j * (width + 1) + i + 1] + a0[j * (width + 1) + i + 1 - (width + 1)]];
  }

  /** Both tables of one raster, built in two passes over flat arrays: running
      row sums first, then each row plus the finished row above. */
  method SumAndSumOfSquares(img: Raster, sum: array<real>, sumOfSquares: array<real>)
    requires img.Valid() && sum != sumOfSquares
    requires sum.Length == (img.width + 1) * (img.height + 1) == sumOfSquares.Length
    requires forall k :: 0 <= k < sum.Length ==> sum[k] == 0.0
    requires forall k :: 0 <= k < sumOfSquares.Length ==> sumOfSquares[k] == 0.0
    modifies sum, sumOfSquares
    ensures IsTable(sum[..], Values(img), img.width, img.height)
    ensures IsTable(sumOfSquares[..], Squares(img), img.width, img.height)
  {
    RowPassStart(sum[..], Values(img), img.width);
    RowPassStart(sumOfSquares[..], Squares(img), img.width);
    SumRows(img, img.width, img.height, sum, sumOfSquares);
    ColumnPassStart(sum[..], Values(img), img.width, img.height);
    ColumnPassStart(sumOfSquares[..], Squares(img), img.width, img.height);
    SumColumns(Values(img), Squares(img), img.width, img.height, sum, sumOfSquares);
    ColumnPassDone(sum[..], Values(img), img.width, img.height);
    ColumnPassDone(sumOfSquares[..], Squares(img), img.width, img.height);
  }

  /** The row pass: cell (i + 1, j) gets the sum of the first i + 1 samples
      (resp. squares) of row j - 1. */
  method SumRows(img: Raster, width: nat, height: nat, sum: array<real>, sumOfSquares: array<real>)
    requires HasSize(img, width, height) && sum != sumOfSquares
    requires sum.Length == (width + 1) * (height + 1) == sumOfSquares.Length
    requires RowPassIn(sum, Values(img), width, 1, 1)
    requires RowPassIn(sumOfSquares, Squares(img), width, 1, 1)
    modifies sum, sumOfSquares
    ensures RowPassIn(sum, Values(img), width, 1, height + 1)
    ensures RowPassIn(sumOfSquares, Squares(img), width, 1, height + 1)
  {
    var w := width + 1;
    var h := height + 1;
    var j := 1;
    while j < h
      invariant 1 <= j <= h
      invariant RowPassIn(sum, Values(img), width, 1, j)
      invariant RowPassIn(sumOfSquares, Squares(img), width, 1, j)
    {
      var rowSum := 0.0;
      var rowSumOfSquares := 0.0;
      var offset := (j - 1) * width;
      var offsetSum := j * w + 1;
      var i := 0;
      while i < width
        invariant 0 <= i <= width
        invariant rowSum == RowSum(Values(img), j - 1, 0, i)
        invariant rowSumOfSquares == RowSum(Squares(img), j - 1, 0, i)
        invariant RowPassIn(sum, Values(img), width, i + 1, j)
        invariant RowPassIn(sumOfSquares, Squares(img), width, i + 1, j)
      {
        CellInRange(i, j - 1, width, height);
        var a := img.pixels[offset + i];
        assert a == img.Pixel(i, j - 1);
        rowSum := rowSum + a;
        StoreRowSum(sum, Values(img), width, height, i, j, offsetSum + i, rowSum);
        rowSumOfSquares := rowSumOfSquares + a * a;
        SquareSample(img, i, j - 1, a);
        StoreRowSum(sumOfSquares, Squares(img), width, height, i, j, offsetSum + i, rowSumOfSquares);
        i := i + 1;
      }
      RowPassNextRow(sum[..], Values(img), width, j);
      RowPassNextRow(sumOfSquares[..], Squares(img), width, j);
      j := j + 1;
    }
  }

  /** The column pass: each row below the border adds the finished row above. */
  method SumColumns(q: Quantity, r: Quantity, width: nat, height: nat, sum: array<real>, sumOfSquares: array<real>)
    requires sum != sumOfSquares
    requires sum.Length == (width + 1) * (height + 1) == sumOfSquares.Length
    requires ColumnPassIn(sum, q, width, 1, 1)
    requires ColumnPassIn(sumOfSquares, r, width, 1, 1)
    modifies sum, sumOfSquares
    ensures ColumnPassIn(sum, q, width, 1, height + 1)
    ensures ColumnPassIn(sumOfSquares, r, width, 1, height + 1)
  {
    var w := width + 1;
    var h := height + 1;
    var j := 1;
    while j < h
      invariant 1 <= j <= h
      invariant ColumnPassIn(sum, q, width, 1, j)
      invariant ColumnPassIn(sumOfSquares, r, width, 1, j)
    {
      var rowOffset := j * w + 1;
      var prevRowOffset := rowOffset - w;
      var i := 0;
      while i < width
        invariant 0 <= i <= width
        invariant ColumnPassIn(sum, q, width, i + 1, j)
        invariant ColumnPassIn(sumOfSquares, r, width, i + 1, j)
      {
        var index := rowOffset + i;
        var indexAbove := prevRowOffset + i;
        AddCellAbove(sum, q, width, height, i, j, index, indexAbove);
        AddCellAbove(sumOfSquares, r, width, height, i, j, index, indexAbove);
        i := i + 1;
      }
      ColumnPassNextRow(sum[..], q, width, j);
      ColumnPassNextRow(sumOfSquares[..], r, width, j);
      j := j + 1;
    }
  }

  /** Four arrays, pairwise distinct, for the tables of two rasters. */
  predicate Distinct4(a: array<real>, b: array<real>, c: array<real>, d: array<real>) {
    a != b && a != c && a != d && b != c && b != d && c != d
  }

  /** The tables of two rasters of equal size, built in the same two passes
      with both rasters handled in one loop; each pair of tables is what
      SumAndSumOfSquares builds for that raster alone. */
  method SumAndSumOfSquaresOfBoth(width: nat, height: nat,
                                  fp1: Raster, sum1: array<real>, sumOfSquares1: array<real>,
                                  fp2: Raster, sum2: array<real>, sumOfSquares2: array<real>)
    requires HasSize(fp1, width, height) && HasSize(fp2, width, height)
    requires Distinct4(sum1, sumOfSquares1, sum2, sumOfSquares2)
    requires sum1.Length == sumOfSquares1.Length == sum2.Length == sumOfSquares2.Length == (width + 1) * (height + 1)
    requires forall k :: 0 <= k < sum1.Length ==> sum1[k] == 0.0
    requires forall k :: 0 <= k < sumOfSquares1.Length ==> sumOfSquares1[k] == 0.0
    requires forall k :: 0 <= k < sum2.Length ==> sum2[k] == 0.0
    requires forall k :: 0 <= k < sumOfSquares2.Length ==> sumOfSquares2[k] == 0.0
    modifies sum1, sumOfSquares1, sum2, sumOfSquares2
    ensures IsTable(sum1[..], Values(fp1), width, height)
    ensures IsTable(sumOfSquares1[..], Squares(fp1), width, height)
    ensures IsTable(sum2[..], Values(fp2), width, height)
    ensures IsTable(sumOfSquares2[..], Squares(fp2), width, height)
  {
    RowPassStart(sum1[..], Values(fp1), width);
    RowPassStart(sumOfSquares1[..], Squares(fp1), width);
    RowPassStart(sum2[..], Values(fp2), width);
    RowPassStart(sumOfSquares2[..], Squares(fp2), width);
    SumRowsOfBoth(width, height, fp1, sum1, sumOfSquares1, fp2, sum2, sumOfSquares2);
    ColumnPassStart(sum1[..], Values(fp1), width, height);
    ColumnPassStart(sumOfSquares1[..], Squares(fp1), width, height);
    ColumnPassStart(sum2[..], Values(fp2), width, height);
    ColumnPassStart(sumOfSquares2[..], Squares(fp2), width, height);
    SumColumnsOfBoth(width, height, fp1, sum1, sumOfSquares1, fp2, sum2, sumOfSquares2);
    ColumnPassDone(sum1[..], Values(fp1), width, height);
    ColumnPassDone(sumOfSquares1[..], Squares(fp1), width, height);
    ColumnPassDone(sum2[..], Values(fp2), width, height);
    ColumnPassDone(sumOfSquares2[..], Squares(fp2), width, height);
  }

  /** The row pass over both rasters. */
  method SumRowsOfBoth(width: nat, height: nat,
                       fp1: Raster, sum1: array<real>, sumOfSquares1: array<real>,
                       fp2: Raster, sum2: array<real>, sumOfSquares2: array<real>)
    requires HasSize(fp1, width, height) && HasSize(fp2, width, height)
    requires Distinct4(sum1, sumOfSquares1, sum2, sumOfSquares2)
    requires sum1.Length == sumOfSquares1.Length == sum2.Length == sumOfSquares2.Length == (width + 1) * (height + 1)
    requires RowPassIn(sum1, Values(fp1), width, 1, 1) && RowPassIn(sumOfSquares1, Squares(fp1), width, 1, 1)
    requires RowPassIn(sum2, Values(fp2), width, 1, 1) && RowPassIn(sumOfSquares2, Squares(fp2), width, 1, 1)
    modifies sum1, sumOfSquares1, sum2, sumOfSquares2
    ensures RowPassIn(sum1, Values(fp1), width, 1, height + 1)
    ensures RowPassIn(sumOfSquares1, Squares(fp1), width, 1, height + 1)
    ensures RowPassIn(sum2, Values(fp2), width, 1, height + 1)
    ensures RowPassIn(sumOfSquares2, Squares(fp2), width, 1, height + 1)
  {
    var w := width + 1;
    var h := height + 1;
    var j := 1;
    while j < h
      invariant 1 <= j <= h
      invariant RowPassIn(sum1, Values(fp1), width, 1, j) && RowPassIn(sumOfSquares1, Squares(fp1), width, 1, j)
      invariant RowPassIn(sum2, Values(fp2), width, 1, j) && RowPassIn(sumOfSquares2, Squares(fp2), width, 1, j)
    {
      var rowSum1 := 0.0;
      var rowSumOfSquares1 := 0.0;
      var rowSum2 := 0.0;
      var rowSumOfSquares2 := 0.0;
      var offset := (j - 1) * width;
      var offsetSum := j * w + 1;
      var i := 0;
      while i < width
        invariant 0 <= i <= width
        invariant rowSum1 == RowSum(Values(fp1), j - 1, 0, i)
        invariant rowSumOfSquares1 == RowSum(Squares(fp1), j - 1, 0, i)
        invariant rowSum2 == RowSum(Values(fp2), j - 1, 0, i)
        invariant rowSumOfSquares2 == RowSum(Squares(fp2), j - 1, 0, i)
        invariant RowPassIn(sum1, Values(fp1), width, i + 1, j) && RowPassIn(sumOfSquares1, Squares(fp1), width, i + 1, j)
        invariant RowPassIn(sum2, Values(fp2), width, i + 1, j) && RowPassIn(sumOfSquares2, Squares(fp2), width, i + 1, j)
      {
        CellInRange(i, j - 1, width, height);

        var a := fp1.pixels[offset + i];
        assert a == fp1.Pixel(i, j - 1);
        rowSum1 := rowSum1 + a;
        StoreRowSum(sum1, Values(fp1), width, height, i, j, offsetSum + i, rowSum1);
        rowSumOfSquares1 := rowSumOfSquares1 + a * a;
        SquareSample(fp1, i, j - 1, a);
        StoreRowSum(sumOfSquares1, Squares(fp1), width, height, i, j, offsetSum + i, rowSumOfSquares1);

        var b := fp2.pixels[offset + i];
        assert b == fp2.Pixel(i, j - 1);
        rowSum2 := rowSum2 + b;
        StoreRowSum(sum2, Values(fp2), width, height, i, j, offsetSum + i, rowSum2);
        rowSumOfSquares2 := rowSumOfSquares2 + b * b;
        SquareSample(fp2, i, j - 1, b);
        StoreRowSum(sumOfSquares2, Squares(fp2), width, height, i, j, offsetSum + i, rowSumOfSquares2);
        i := i + 1;
      }
      RowPassNextRow(sum1[..], Values(fp1), width, j);
      RowPassNextRow(sumOfSquares1[..], Squares(fp1), width, j);
      RowPassNextRow(sum2[..], Values(fp2), width, j);
      RowPassNextRow(sumOfSquares2[..], Squares(fp2), width, j);
      j := j + 1;
    }
  }

  /** The column pass over both rasters. */
  method SumColumnsOfBoth(width: nat, height: nat,
                          fp1: Raster, sum1: array<real>, sumOfSquares1: array<real>,
                          fp2: Raster, sum2: array<real>, sumOfSquares2: array<real>)
    requires Distinct4(sum1, sumOfSquares1, sum2, sumOfSquares2)
    requires sum1.Length == sumOfSquares1.Length == sum2.Length == sumOfSquares2.Length == (width + 1) * (height + 1)
    requires ColumnPassIn(sum1, Values(fp1), width, 1, 1) && ColumnPassIn(sumOfSquares1, Squares(fp1), width, 1, 1)
    requires ColumnPassIn(sum2, Values(fp2), width, 1, 1) && ColumnPassIn(sumOfSquares2, Squares(fp2), width, 1, 1)
    modifies sum1, sumOfSquares1, sum2, sumOfSquares2
    ensures ColumnPassIn(sum1, Values(fp1), width, 1, height + 1)
    ensures ColumnPassIn(sumOfSquares1, Squares(fp1), width, 1, height + 1)
    ensures ColumnPassIn(sum2, Values(fp2), width, 1, height + 1)
    ensures ColumnPassIn(sumOfSquares2, Squares(fp2), width, 1, height + 1)
  {
    var w := width + 1;
    var h := height + 1;
    var j := 1;
    while j < h
      invariant 1 <= j <= h
      invariant ColumnPassIn(sum1, Values(fp1), width, 1, j) && ColumnPassIn(sumOfSquares1, Squares(fp1), width, 1, j)
      invariant ColumnPassIn(sum2, Values(fp2), width, 1, j) && ColumnPassIn(sumOfSquares2, Squares(fp2), width, 1, j)
    {
      var rowOffset := j * w + 1;
      var prevRowOffset := rowOffset - w;
      var i := 0;
      while i < width
        invariant 0 <= i <= width
        invariant ColumnPassIn(sum1, Values(fp1), width, i + 1, j) && ColumnPassIn(sumOfSquares1, Squares(fp1), width, i + 1, j)
        invariant ColumnPassIn(sum2, Values(fp2), width, i + 1, j) && ColumnPassIn(sumOfSquares2, Squares(fp2), width, i + 1, j)
      {
        var index := rowOffset + i;
        var indexAbove := prevRowOffset + i;
        AddCellAbove(sum1, Values(fp1), width, height, i, j, index, indexAbove);
        AddCellAbove(sumOfSquares1, Squares(fp1), width, height, i, j, index, indexAbove);
        AddCellAbove(sum2, Values(fp2), width, height, i, j, index, indexAbove);
        AddCellAbove(sumOfSquares2, Squares(fp2), width, height, i, j, index, indexAbove);
        i := i + 1;
      }
      ColumnPassNextRow(sum1[..], Values(fp1), width, j);
      ColumnPassNextRow(sumOfSquares1[..], Squares(fp1), width, j);
      ColumnPassNextRow(sum2[..], Values(fp2), width, j);
      ColumnPassNextRow(sumOfSquares2[..], Squares(fp2), width, j);
      j := j + 1;
    }
  }

  // ---------------------------------------------------------------------
  // Offsets and overlap

  /** Along one axis: where the overlap of the two rasters starts in X and
      in Y, and how many pixels it spans. */
  datatype Overlap = Overlap(inX: int, inY: int, size: int)

  /** The overlap for Y shifted by offset against X, along one axis. */
  function OverlapOf(dimX: int, dimY: int, offset: int): (o: Overlap)
    ensures o.inX == Max(0, -offset) && o.inY == Max(0, offset)
    ensures o.size == Min(dimX - o.inX, dimY - o.inY)
  {
    if offset < 0 then Overlap(-offset, 0, Min(dimX + offset, dimY))
    else Overlap(0, offset, Min(dimX, dimY - offset))
  }

  /** Swapping the rasters and negating the offset exchanges the two start
      positions and keeps the size. */
  lemma OverlapSwap(dimX: int, dimY: int, offset: int)
    ensures OverlapOf(dimY, dimX, -offset)
         == Overlap(OverlapOf(dimX, dimY, offset).inY, OverlapOf(dimX, dimY, offset).inX, OverlapOf(dimX, dimY, offset).size)
  {}

  /** The overlap is nonempty exactly when both rasters are and the offset
      is less than either extent. */
  lemma OverlapNonempty(dimX: int, dimY: int, offset: int)
    ensures OverlapOf(dimX, dimY, offset).size >= 1 <==> 1 <= dimX && 1 <= dimY && -dimX < offset < dimY
  {}

  /** Cell (c, r) of the product table lies in the overlap rebuilt for an
      ow x oh overlap. */
  predicate InOverlap(c: int, r: int, ow: int, oh: int) {
    1 <= c <= ow && 1 <= r <= oh
  }

  /** The product table for an ow x oh overlap: the zero border, and prefix
      sums of q in every cell up to (ow, oh). */
  ghost predicate ProductTable(t: seq<real>, q: Quantity, width: nat, ow: int, oh: int) {
    HoldsPrefix(t, q, width, ow, oh) &&
    forall k :: 0 <= k < |t| && (k % (width + 1) == 0 || k / (width + 1) == 0) ==> t[k] == 0.0
  }

  /** A fresh table is the product table of an empty overlap. */
  lemma ZeroProductTable(t: seq<real>, q: Quantity, width: nat)
    requires forall k :: 0 <= k < |t| ==> t[k] == 0.0
    ensures ProductTable(t, q, width, 0, 0)
  {
    PrefixBorder(q, 0, 0);
  }

  /** The product table while SetOffset is at cursor (ci, ri): overlap cells
      before the cursor hold prefix sums of q, every other cell its old value. */
  ghost predicate Rebuilt(a: seq<real>, o: seq<real>, q: Quantity, w: nat, ow: int, oh: int, ci: int, ri: int)
    requires w > 0
  {
    |a| == |o| &&
    forall k :: 0 <= k < |a| ==>
      a[k] == (if InOverlap(k % w, k / w, ow, oh) && Before(k % w, k / w, ci, ri)
               then Prefix(q, k % w, k / w) else o[k])
  }

  ghost predicate RebuiltIn(a: array<real>, o: seq<real>, q: Quantity, w: nat, ow: int, oh: int, ci: int, ri: int)
    requires w > 0
    reads a
  {
    Rebuilt(a[..], o, q, w, ow, oh, ci, ri)
  }

  /** An overlap cell before the cursor holds its prefix sum. */
  lemma RebuiltRead(a: seq<real>, o: seq<real>, q: Quantity, w: nat, rows: nat, ow: int, oh: int,
                    ci: int, ri: int, c: int, r: int)
    requires w > 0 && |a| == w * rows && Rebuilt(a, o, q, w, ow, oh, ci, ri)
    requires 0 <= c < w && 0 <= r < rows
    requires InOverlap(c, r, ow, oh) && Before(c, r, ci, ri)
    ensures 0 <= r * w + c < |a| && a[r * w + c] == Prefix(q, c, r)
  {
    CellInRange(c, r, w, rows);
    CellDivMod(c, r, w);
  }

  /** Writing the prefix sum of the cursor cell advances the cursor. */
  lemma RebuiltStep(a: seq<real>, o: seq<real>, q: Quantity, w: nat, rows: nat, ow: int, oh: int,
                    c: int, r: int, v: real)
    requires w > 0 && |a| == w * rows && Rebuilt(a, o, q, w, ow, oh, c, r)
    requires 0 <= c < w && 0 <= r < rows && InOverlap(c, r, ow, oh)
    requires v == Prefix(q, c, r)
    ensures 0 <= r * w + c < |a|
    ensures Rebuilt(a[r * w + c := v], o, q, w, ow, oh, c + 1, r)
  {
    var p := r * w + c;
    CellInRange(c, r, w, rows);
    CellDivMod(c, r, w);
    var b := a[p := v];
    forall k | 0 <= k < |b|
      ensures b[k] == (if InOverlap(k % w, k / w, ow, oh) && Before(k % w, k / w, c + 1, r)
                       then Prefix(q, k % w, k / w) else o[k])
    {
      if k != p {
        assert (k % w, k / w) != (c, r) by { IndexOfCell(k, w); }
      }
    }
  }

  /** Past the last overlap cell of a row the cursor moves to the next row. */
  lemma RebuiltNextRow(a: seq<real>, o: seq<real>, q: Quantity, w: nat, ow: int, oh: int, r: int)
    requires w > 0 && Rebuilt(a, o, q, w, ow, oh, ow + 1, r)
    ensures Rebuilt(a, o, q, w, ow, oh, 1, r + 1)
  {
  }

  /** Once the cursor has passed the last overlap row, the table is the
      product table of the new overlap: rebuilt cells hold prefix sums and
      the border keeps the zeros it had. */
  lemma RebuiltDone(a: seq<real>, o: seq<real>, q: Quantity, q0: Quantity, width: nat,
                    ow: int, oh: int, ow0: int, oh0: int)
    requires 0 <= oh && Rebuilt(a, o, q, width + 1, ow, oh, 1, oh + 1)
    requires ProductTable(o, q0, width, ow0, oh0)
    ensures ProductTable(a, q, width, ow, oh)
    ensures forall k :: 0 <= k < |a| ==>
      a[k] == (if InOverlap(k % (width + 1), k / (width + 1), ow, oh)
               then Prefix(q, k % (width + 1), k / (width + 1)) else o[k])
  {
    RebuiltAll(a, o, q, width + 1, ow, oh);
    RebuiltTable(a, o, q, q0, width, ow, oh, ow0, oh0);
  }

  lemma RebuiltAll(a: seq<real>, o: seq<real>, q: Quantity, w: nat, ow: int, oh: int)
    requires w > 0 && 0 <= oh && Rebuilt(a, o, q, w, ow, oh, 1, oh + 1)
    ensures forall k :: 0 <= k < |a| ==>
      a[k] == (if InOverlap(k % w, k / w, ow, oh) then Prefix(q, k % w, k / w) else o[k])
  {
    forall k | 0 <= k < |a|
      ensures a[k] == (if InOverlap(k % w, k / w, ow, oh) then Prefix(q, k % w, k / w) else o[k])
    {
      assert InOverlap(k % w, k / w, ow, oh) ==> Before(k % w, k / w, 1, oh + 1);
    }
  }

  lemma RebuiltTable(a: seq<real>, o: seq<real>, q: Quantity, q0: Quantity, width: nat,
                     ow: int, oh: int, ow0: int, oh0: int)
    requires |a| == |o| && ProductTable(o, q0, width, ow0, oh0)
    requires forall k :: 0 <= k < |a| ==>
      a[k] == (if InOverlap(k % (width + 1), k / (width + 1), ow, oh)
               then Prefix(q, k % (width + 1), k / (width + 1)) else o[k])
    ensures ProductTable(a, q, width, ow, oh)
  {
    var w := width + 1;
    forall k | 0 <= k < |a|
      ensures k % w <= ow && k / w <= oh ==> a[k] == Prefix(q, k % w, k / w)
      ensures k % w == 0 || k / w == 0 ==> a[k] == 0.0
    {
      RebuiltCell(a[k], o[k], q, k % w, k / w, ow, oh);
    }
  }

  /** One cell of a rebuilt table: a cell in the overlap got its prefix sum,
      and a border cell kept its zero. */
  lemma RebuiltCell(v: real, old_v: real, q: Quantity, c: int, r: int, ow: int, oh: int)
    requires 0 <= c && 0 <= r
    requires v == (if InOverlap(c, r, ow, oh) then Prefix(q, c, r) else old_v)
    requires c == 0 || r == 0 ==> old_v == 0.0
    ensures c <= ow && r <= oh ==> v == Prefix(q, c, r)
    ensures c == 0 || r == 0 ==> v == 0.0
  {
    PrefixBorder(q, c, r);
  }

  /** One step of the rebuild: the cursor cell gets its prefix sum. */
  method StoreProduct(a: array<real>, ghost o: seq<real>, ghost q: Quantity, w: nat, rows: nat, ow: int, oh: int,
                      c: int, r: int, index: int, v: real)
    requires w > 0 && a.Length == w * rows
    requires 0 <= c < w && 0 <= r < rows && InOverlap(c, r, ow, oh) && index == r * w + c
    requires RebuiltIn(a, o, q, w, ow, oh, c, r)
    requires v == Prefix(q, c, r)
    modifies a
    ensures RebuiltIn(a, o, q, w, ow, oh, c + 1, r)
  {
    ghost var a0 := a[..];
    RebuiltStep(a0, o, q, w, rows, ow, oh, c, r, v);
    a[index] := v;
    assert a[..] == a0[index := v];
  }

  /** The overlap of X read at (xx, yx) and Y read at (xy, yy) spans
      ow x oh pixels inside both rasters and fits a table of w x rows cells. */
  predicate Fits(X: Raster, Y: Raster, xx: int, yx: int, xy: int, yy: int, ow: int, oh: int, w: nat, rows: nat) {
    X.Valid() && Y.Valid() &&
    0 <= xx && 0 <= yx && 0 <= xy && 0 <= yy &&
    1 <= ow && ow + xx <= X.width && ow + xy <= Y.width &&
    1 <= oh && oh + yx <= X.height && oh + yy <= Y.height &&
    ow < w && oh < rows
  }

  /** The index setOffset as written stores table cell (c, r) at: its
      stride is the result raster's width plus one, not the product table's. */
  function AsWrittenIndex(rWidth: nat, c: int, r: int): int {
    r * (rWidth + 1) + c
  }

  /** Where the result raster is exactly as wide as the product table (both
      equal-size constructors, and any pair with widthY <= widthX), the
      as-written index is the product table's own, so the corrected rebuild
      is the source as written there. */
  lemma AsWrittenIndexAgrees(rWidth: nat, xyWidth: nat, c: int, r: int)
    requires rWidth == xyWidth
    ensures AsWrittenIndex(rWidth, c, r) == r * (xyWidth + 1) + c
  {}

  /** Where the result raster is wider than the product table, every cell
      below the border row is stored past the place it is read from. */
  lemma AsWrittenIndexShift(rWidth: nat, xyWidth: nat, c: int, r: int)
    requires xyWidth < rWidth && 1 <= r
    ensures AsWrittenIndex(rWidth, c, r) >= r * (xyWidth + 1) + c + r
  {
    MulMono(xyWidth + 2, rWidth + 1, r);
  }

  /** X of 1 x 1 and Y of 2 x 1 at offset (0, 0): the overlap is one pixel
      and the first store of the product table as written lands one past
      its last cell. */
  lemma AsWrittenOverrun()
    ensures var x, y := Raster(1, 1, [1.0]), Raster(2, 1, [1.0, 1.0]);
            var ox, oy := OverlapOf(x.width, y.width, 0), OverlapOf(x.height, y.height, 0);
            ox.size == 1 && oy.size == 1 &&
            AsWrittenIndex(y.width, ox.size, 1) == (Min(x.width, y.width) + 1) * (Min(x.height, y.height) + 1)
  {}

  /** With the product table's own stride every overlap cell is inside it. */
  lemma ProductCellInRange(xyWidth: nat, xyHeight: nat, ow: int, oh: int, c: int, r: int)
    requires 0 <= c <= ow <= xyWidth && 0 <= r <= oh <= xyHeight
    ensures 0 <= r * (xyWidth + 1) + c < (xyWidth + 1) * (xyHeight + 1)
  {
    CellInRange(c, r, xyWidth + 1, xyHeight + 1);
  }

  /** Rebuilds cells (1, 1) to (ow, oh) of the product table t, with stride
      w, row by row; the other cells keep their values. */
  method RebuildProducts(t: array<real>, X: Raster, Y: Raster, xx: int, yx: int, xy: int, yy: int,
                         ow: int, oh: int, w: nat, rows: nat)
    requires t.Length == w * rows && Fits(X, Y, xx, yx, xy, yy, ow, oh, w, rows)
    modifies t
    ensures Rebuilt(t[..], old(t[..]), Products(X, Y, xx, yx, xy, yy), w, ow, oh, 1, oh + 1)
  {
    ghost var o := t[..];
    RebuildFirstRow(t, X, Y, xx, yx, xy, yy, ow, oh, w, rows);
    var y := 1;
    while y < oh
      invariant 1 <= y <= oh
      invariant RebuiltIn(t, o, Products(X, Y, xx, yx, xy, yy), w, ow, oh, 1, y + 1)
    {
      RebuildRow(t, o, X, Y, xx, yx, xy, yy, ow, oh, w, rows, y);
      y := y + 1;
    }
  }

  /** The first overlap row: a running sum of the products. */
  method RebuildFirstRow(t: array<real>, X: Raster, Y: Raster, xx: int, yx: int, xy: int, yy: int,
                         ow: int, oh: int, w: nat, rows: nat)
    requires t.Length == w * rows && Fits(X, Y, xx, yx, xy, yy, ow, oh, w, rows)
    modifies t
    ensures RebuiltIn(t, old(t[..]), Products(X, Y, xx, yx, xy, yy), w, ow, oh, 1, 2)
  {
    ghost var o := t[..];
    ghost var q := Products(X, Y, xx, yx, xy, yy);
    var fpXWidth := X.width;
    var fpYWidth := Y.width;
    var s := 0.0;
    var x := 0;
    while x < ow
      invariant 0 <= x <= ow
      invariant s == Prefix(q, x, 1)
      invariant RebuiltIn(t, o, q, w, ow, oh, x + 1, 1)
    {
      PixelAt(X, x + xx, yx);
      PixelAt(Y, x + xy, yy);
      var vX := X.pixels[yx * fpXWidth + x + xx];
      var vY := Y.pixels[yy * fpYWidth + x + xy];
      ProductSample(X, Y, xx, yx, xy, yy, x, 0, vX, vY);
      PrefixFirstRow(q, x);
      s := s + vX * vY;
      x := x + 1;
      StoreProduct(t, o, q, w, rows, ow, oh, x, 1, x + w, s);
    }
    RebuiltNextRow(t[..], o, q, w, ow, oh, 1);
  }

  /** Overlap row y + 1 of the table from row y and the products of pixel
      row y. */
  method RebuildRow(t: array<real>, ghost o: seq<real>, X: Raster, Y: Raster, xx: int, yx: int, xy: int, yy: int,
                    ow: int, oh: int, w: nat, rows: nat, y: int)
    requires t.Length == w * rows && Fits(X, Y, xx, yx, xy, yy, ow, oh, w, rows)
    requires 1 <= y < oh
    requires RebuiltIn(t, o, Products(X, Y, xx, yx, xy, yy), w, ow, oh, 1, y + 1)
    modifies t
    ensures RebuiltIn(t, o, Products(X, Y, xx, yx, xy, yy), w, ow, oh, 1, y + 2)
  {
    ghost var q := Products(X, Y, xx, yx, xy, yy);
    var w1 := w + 1;
    var rowX := (y + yx) * X.width;
    var rowY := (y + yy) * Y.width;

    PixelAt(X, xx, y + yx);
    PixelAt(Y, xy, y + yy);
    var vX := X.pixels[rowX + xx];
    var vY := Y.pixels[rowY + xy];
    ProductSample(X, Y, xx, yx, xy, yy, 0, y, vX, vY);

    var yw := y * w + w1;
    assert yw == (y + 1) * w + 1;
    RebuiltRead(t[..], o, q, w, rows, ow, oh, 1, y + 1, 1, y);
    PrefixFirstColumn(q, y);
    StoreProduct(t, o, q, w, rows, ow, oh, 1, y + 1, yw, t[yw - w] + vX * vY);
    var x := 1;
    while x < ow
      invariant 1 <= x <= ow
      invariant RebuiltIn(t, o, q, w, ow, oh, x + 1, y + 1)
    {
      var ywx := yw + x;

      PixelAt(X, x + xx, y + yx);
      PixelAt(Y, x + xy, y + yy);
      vX := X.pixels[rowX + x + xx];
      vY := Y.pixels[rowY + x + xy];
      ProductSample(X, Y, xx, yx, xy, yy, x, y, vX, vY);

      RebuiltRead(t[..], o, q, w, rows, ow, oh, x + 1, y + 1, x + 1, y);
      RebuiltRead(t[..], o, q, w, rows, ow, oh, x + 1, y + 1, x, y + 1);
      RebuiltRead(t[..], o, q, w, rows, ow, oh, x + 1, y + 1, x, y);
      PrefixStep(q, x, y);
      StoreProduct(t, o, q, w, rows, ow, oh, x + 1, y + 1, ywx,
                   t[ywx - w] + t[ywx - 1] + vX * vY - t[ywx - w - 1]);
      x := x + 1;
    }
    RebuiltNextRow(t[..], o, q, w, ow, oh, y + 1);
  }

  /** One sample of the product quantity, as SetOffset reads it. */
  lemma ProductSample(x: Raster, y: Raster, xx: int, yx: int, xy: int, yy: int, c: int, r: int, vX: real, vY: real)
    requires vX == x.Pixel(c + xx, r + yx) && vY == y.Pixel(c + xy, r + yy)
    ensures Sample(Products(x, y, xx, yx, xy, yy), c, r) == vX * vY
  {}

  /** The flat index SetOffset reads pixel (c, r) of a raster at. */
  lemma PixelAt(img: Raster, c: int, r: int)
    requires img.Valid() && 0 <= c < img.width && 0 <= r < img.height
    ensures 0 <= r * img.width + c < |img.pixels| && img.pixels[r * img.width + c] == img.Pixel(c, r)
  {
    CellInRange(c, r, img.width, img.height);
  }

  // ---------------------------------------------------------------------
  // Block statistics

  /** The five sums over one block and its pixel count. */
  datatype Stats = Stats(n: int, sumX: real, sumXX: real, sumY: real, sumYY: real, sumXY: real)

  /** The statistics of the block of radius (radiusX, radiusY) around pixel
      (x, y) of an ow x oh overlap; X is read at offset (xx, yx) and Y at
      offset (xy, yy). */
  function BlockStats(X: Raster, Y: Raster, xx: int, yx: int, xy: int, yy: int, ow: int, oh: int,
                      x: int, y: int, radiusX: int, radiusY: int): Stats
  {
    var (xMin, xMax) := Window(x, radiusX, ow - 1);
    var (yMin, yMax) := Window(y, radiusY, oh - 1);
    Stats((xMax - xMin) * (yMax - yMin),
          WindowSum(Values(X), xMin + xx, yMin + yx, xMax + xx, yMax + yx),
          WindowSum(Squares(X), xMin + xx, yMin + yx, xMax + xx, yMax + yx),
          WindowSum(Values(Y), xMin + xy, yMin + yy, xMax + xy, yMax + yy),
          WindowSum(Squares(Y), xMin + xy, yMin + yy, xMax + xy, yMax + yy),
          WindowSum(Products(X, Y, xx, yx, xy, yy), xMin, yMin, xMax, yMax))
  }

  /** The block statistics spelled out for given window corners. */
  lemma BlockStatsAt(X: Raster, Y: Raster, xx: int, yx: int, xy: int, yy: int, ow: int, oh: int,
                     x: int, y: int, radiusX: int, radiusY: int,
                     xMin: int, yMin: int, xMax: int, yMax: int)
    requires Window(x, radiusX, ow - 1) == (xMin, xMax) && Window(y, radiusY, oh - 1) == (yMin, yMax)
    ensures var s := BlockStats(X, Y, xx, yx, xy, yy, ow, oh, x, y, radiusX, radiusY);
            s.n == Count(xMin, yMin, xMax, yMax) &&
            s.sumX == WindowSum(Values(X), xMin + xx, yMin + yx, xMax + xx, yMax + yx) &&
            s.sumXX == WindowSum(Squares(X), xMin + xx, yMin + yx, xMax + xx, yMax + yx) &&
            s.sumY == WindowSum(Values(Y), xMin + xy, yMin + yy, xMax + xy, yMax + yy) &&
            s.sumYY == WindowSum(Squares(Y), xMin + xy, yMin + yy, xMax + xy, yMax + yy) &&
            s.sumXY == WindowSum(Products(X, Y, xx, yx, xy, yy), xMin, yMin, xMax, yMax)
  {}

  /** Block statistics assembled from the five window sums. */
  lemma StatsOfWindows(X: Raster, Y: Raster, xx: int, yx: int, xy: int, yy: int, ow: int, oh: int,
                       x: int, y: int, radiusX: int, radiusY: int,
                       xMin: int, yMin: int, xMax: int, yMax: int, s: Stats)
    requires Window(x, radiusX, ow - 1) == (xMin, xMax) && Window(y, radiusY, oh - 1) == (yMin, yMax)
    requires s.n == (xMax - xMin) * (yMax - yMin)
    requires s.sumX == WindowSum(Values(X), xMin + xx, yMin + yx, xMax + xx, yMax + yx)
    requires s.sumXX == WindowSum(Squares(X), xMin + xx, yMin + yx, xMax + xx, yMax + yx)
    requires s.sumY == WindowSum(Values(Y), xMin + xy, yMin + yy, xMax + xy, yMax + yy)
    requires s.sumYY == WindowSum(Squares(Y), xMin + xy, yMin + yy, xMax + xy, yMax + yy)
    requires s.sumXY == WindowSum(Products(X, Y, xx, yx, xy, yy), xMin, yMin, xMax, yMax)
    ensures s == BlockStats(X, Y, xx, yx, xy, yy, ow, oh, x, y, radiusX, radiusY)
  {}

  /** What one pixel of the result raster holds. */
  datatype CorrValue =
    | Zero                                        // not written since the raster was created
    | Pearson(cov: real, varX: real, varY: real)  // cov / (sqrt(varX) * sqrt(varY))
    | SignedSquare(num: real, den: real)          // num / den

  /** Which of the two results is being computed. */
  datatype Measure = Correlation | SignedSquareCorrelation

  /** r: the covariance and the two variances, each scaled by n^2. */
  function PearsonOf(s: Stats): CorrValue {
    var n := s.n as real;
    Pearson(n * s.sumXY - s.sumX * s.sumY, n * s.sumXX - s.sumX * s.sumX, n * s.sumYY - s.sumY * s.sumY)
  }

  /** r^2 with the sign of r: a^2 / b, negated where a < 0. */
  function SignedSquareOf(s: Stats): CorrValue {
    var n := s.n as real;
    var a := n * s.sumXY - s.sumX * s.sumY;
    var b := (n * s.sumXX - s.sumX * s.sumX) * (n * s.sumYY - s.sumY * s.sumY);
    if a < 0.0 then SignedSquare(-a * a, b) else SignedSquare(a * a, b)
  }

  function ValueOf(m: Measure, s: Stats): CorrValue {
    match m
    case Correlation => PearsonOf(s)
    case SignedSquareCorrelation => SignedSquareOf(s)
  }

  /** Fresh tables of a raster's values and squares. */
  method TablesOf(img: Raster) returns (sum: array<real>, sumOfSquares: array<real>)
    requires img.Valid()
    ensures fresh(sum) && fresh(sumOfSquares) && sum != sumOfSquares
    ensures IsTable(sum[..], Values(img), img.width, img.height)
    ensures IsTable(sumOfSquares[..], Squares(img), img.width, img.height)
  {
    sum := new real[(img.width + 1) * (img.height + 1)](_ => 0.0);
    sumOfSquares := new real[sum.Length](_ => 0.0);
    SumAndSumOfSquares(img, sum, sumOfSquares);
  }

  /** Fresh tables of two width x height rasters, built in one pass. */
  method TablesOfBoth(width: nat, height: nat, fp1: Raster, fp2: Raster)
    returns (sum1: array<real>, sumOfSquares1: array<real>, sum2: array<real>, sumOfSquares2: array<real>)
    requires HasSize(fp1, width, height) && HasSize(fp2, width, height)
    ensures fresh(sum1) && fresh(sumOfSquares1) && fresh(sum2) && fresh(sumOfSquares2)
    ensures Distinct4(sum1, sumOfSquares1, sum2, sumOfSquares2)
    ensures IsTable(sum1[..], Values(fp1), width, height)
    ensures IsTable(sumOfSquares1[..], Squares(fp1), width, height)
    ensures IsTable(sum2[..], Values(fp2), width, height)
    ensures IsTable(sumOfSquares2[..], Squares(fp2), width, height)
  {
    var n := (width + 1) * (height + 1);
    sum1 := new real[n](_ => 0.0);
    sumOfSquares1 := new real[n](_ => 0.0);
    sum2 := new real[n](_ => 0.0);
    sumOfSquares2 := new real[n](_ => 0.0);
    SumAndSumOfSquaresOfBoth(width, height, fp1, sum1, sumOfSquares1, fp2, sum2, sumOfSquares2);
  }

  /** A fresh product table for a width x height overlap, still all zero. */
  method EmptyProductTable(X: Raster, Y: Raster, width: nat, height: nat) returns (sum: array<real>)
    ensures fresh(sum) && sum.Length == (width + 1) * (height + 1)
    ensures ProductTable(sum[..], Products(X, Y, 0, 0, 0, 0), width, 0, 0)
    ensures forall k :: 0 <= k < sum.Length ==> sum[k] == 0.0
  {
    sum := new real[(width + 1) * (height + 1)](_ => 0.0);
    ZeroProductTable(sum[..], Products(X, Y, 0, 0, 0, 0), width);
  }

  /** The result raster while r is at cursor (ci, ri): cells of the ow x oh
      overlap before the cursor hold their target value t[k], every other
      cell its old value o[k]. */
  ghost predicate Painted(a: seq<CorrValue>, o: seq<CorrValue>, t: seq<CorrValue>, width: nat,
                          ow: int, oh: int, ci: int, ri: int) {
    (width > 0 || |a| == 0) && |a| == |o| == |t| &&
    forall k :: 0 <= k < |a| ==>
      a[k] == (if k % width < ow && k / width < oh && Before(k % width, k / width, ci, ri) then t[k] else o[k])
  }

  /** Nothing is painted before the first cell. */
  lemma PaintedStart(a: seq<CorrValue>, t: seq<CorrValue>, width: nat, ow: int, oh: int)
    requires (width > 0 || |a| == 0) && |a| == |t|
    ensures Painted(a, a, t, width, ow, oh, 0, 0)
  {}

  /** Writing the target value of the cursor cell advances the cursor. */
  lemma PaintedStep(a: seq<CorrValue>, o: seq<CorrValue>, t: seq<CorrValue>, width: nat, rows: nat,
                    ow: int, oh: int, c: int, r: int)
    requires |a| == width * rows && Painted(a, o, t, width, ow, oh, c, r)
    requires 0 <= c < ow <= width && 0 <= r < oh <= rows
    ensures 0 <= r * width + c < |a|
    ensures Painted(a[r * width + c := t[r * width + c]], o, t, width, ow, oh, c + 1, r)
  {
    var p := r * width + c;
    CellInRange(c, r, width, rows);
    CellDivMod(c, r, width);
    var b := a[p := t[p]];
    forall k | 0 <= k < |b|
      ensures b[k] == (if k % width < ow && k / width < oh && Before(k % width, k / width, c + 1, r) then t[k] else o[k])
    {
      if k != p {
        assert (k % width, k / width) != (c, r) by { IndexOfCell(k, width); }
      }
    }
  }

  /** Past the last overlap cell of a row the cursor moves to the next row. */
  lemma PaintedNextRow(a: seq<CorrValue>, o: seq<CorrValue>, t: seq<CorrValue>, width: nat, ow: int, oh: int, r: int)
    requires Painted(a, o, t, width, ow, oh, ow, r)
    ensures Painted(a, o, t, width, ow, oh, 0, r + 1)
  {}

  // ---------------------------------------------------------------------
  // Properties of the block statistics

  /** Around a pixel of the overlap and for radii >= 0, the block is the
      window (xMin, xMax] x (yMin, yMax] around the pixel and between 1 and
      (2 rx + 1)(2 ry + 1) pixels large. */
  lemma BlockWindow(ow: int, oh: int, x: int, y: int, radiusX: int, radiusY: int,
                    xMin: int, yMin: int, xMax: int, yMax: int)
    requires 0 <= x < ow && 0 <= y < oh && radiusX >= 0 && radiusY >= 0
    requires Window(x, radiusX, ow - 1) == (xMin, xMax) && Window(y, radiusY, oh - 1) == (yMin, yMax)
    ensures -1 <= xMin < x <= xMax < ow && -1 <= yMin < y <= yMax < oh
    ensures 1 <= Count(xMin, yMin, xMax, yMax) <= (2 * radiusX + 1) * (2 * radiusY + 1)
  {
    WindowBounds(x, radiusX, ow - 1);
    WindowBounds(y, radiusY, oh - 1);
    CountBound(xMax - xMin, yMax - yMin, 2 * radiusX + 1, 2 * radiusY + 1);
  }

  /** Each statistic of a block is the sum of its quantity over exactly the
      pixels of the block. */
  lemma BlockStatsAreBlockSums(X: Raster, Y: Raster, xx: int, yx: int, xy: int, yy: int, ow: int, oh: int,
                               x: int, y: int, radiusX: int, radiusY: int,
                               xMin: int, yMin: int, xMax: int, yMax: int)
    requires 0 <= xx && 0 <= yx && 0 <= xy && 0 <= yy
    requires 0 <= x < ow && 0 <= y < oh && radiusX >= 0 && radiusY >= 0
    requires Window(x, radiusX, ow - 1) == (xMin, xMax) && Window(y, radiusY, oh - 1) == (yMin, yMax)
    ensures var s := BlockStats(X, Y, xx, yx, xy, yy, ow, oh, x, y, radiusX, radiusY);
            s.n == Count(xMin, yMin, xMax, yMax) &&
            s.sumX == BoxSum(Values(X), xMin + xx + 1, yMin + yx + 1, xMax + xx + 1, yMax + yx + 1) &&
            s.sumXX == BoxSum(Squares(X), xMin + xx + 1, yMin + yx + 1, xMax + xx + 1, yMax + yx + 1) &&
            s.sumY == BoxSum(Values(Y), xMin + xy + 1, yMin + yy + 1, xMax + xy + 1, yMax + yy + 1) &&
            s.sumYY == BoxSum(Squares(Y), xMin + xy + 1, yMin + yy + 1, xMax + xy + 1, yMax + yy + 1) &&
            s.sumXY == BoxSum(Products(X, Y, xx, yx, xy, yy), xMin + 1, yMin + 1, xMax + 1, yMax + 1)
  {
    var s := BlockStats(X, Y, xx, yx, xy, yy, ow, oh, x, y, radiusX, radiusY);
    BlockWindow(ow, oh, x, y, radiusX, radiusY, xMin, yMin, xMax, yMax);
    BlockStatsAt(X, Y, xx, yx, xy, yy, ow, oh, x, y, radiusX, radiusY, xMin, yMin, xMax, yMax);
    ShiftedWindowIsBox(Values(X), xMin, yMin, xMax, yMax, xx, yx, s.sumX);
    ShiftedWindowIsBox(Squares(X), xMin, yMin, xMax, yMax, xx, yx, s.sumXX);
    ShiftedWindowIsBox(Values(Y), xMin, yMin, xMax, yMax, xy, yy, s.sumY);
    ShiftedWindowIsBox(Squares(Y), xMin, yMin, xMax, yMax, xy, yy, s.sumYY);
    WindowSumIsBoxSum(Products(X, Y, xx, yx, xy, yy), xMin, yMin, xMax, yMax);
  }

  /** A window shifted by (dx, dy) sums the shifted box. */
  lemma ShiftedWindowIsBox(q: Quantity, xMin: int, yMin: int, xMax: int, yMax: int, dx: int, dy: int, v: real)
    requires -1 <= xMin <= xMax && -1 <= yMin <= yMax && 0 <= dx && 0 <= dy
    requires v == WindowSum(q, xMin + dx, yMin + dy, xMax + dx, yMax + dy)
    ensures v == BoxSum(q, xMin + dx + 1, yMin + dy + 1, xMax + dx + 1, yMax + dy + 1)
  {
    WindowSumIsBoxSum(q, xMin + dx, yMin + dy, xMax + dx, yMax + dy);
  }

  /** A dx x dy block with sides in [1, mx] and [1, my] has between 1 and
      mx * my pixels. */
  lemma CountBound(dx: int, dy: int, mx: int, my: int)
    requires 1 <= dx <= mx && 1 <= dy <= my
    ensures 1 <= dx * dy <= mx * my
  {
    MulMono(1, dx, dy);
    MulMono(dx, mx, dy);
    MulMono(dy, my, mx);
  }

  /** n * sum(v^2) - (sum v)^2 for an n-pixel box is never negative. */
  lemma ScaledVariance(img: Raster, n: int, s: real, sq: real, c0: int, r0: int, c1: int, r1: int)
    requires c0 < c1 && r0 < r1 && n == (c1 - c0) * (r1 - r0)
    requires s == BoxSum(Values(img), c0, r0, c1, r1) && sq == BoxSum(Squares(img), c0, r0, c1, r1)
    ensures Spread(n, s, sq) >= 0.0
  {
    BoxVarianceNonnegative(img, c0, r0, c1, r1);
  }

  /** The scaled variances under both square roots of r are never negative,
      so r is undefined only where a block has no variance. */
  lemma BlockVariancesNonnegative(X: Raster, Y: Raster, xx: int, yx: int, xy: int, yy: int, ow: int, oh: int,
                                  x: int, y: int, radiusX: int, radiusY: int)
    requires 0 <= xx && 0 <= yx && 0 <= xy && 0 <= yy
    requires 0 <= x < ow && 0 <= y < oh && radiusX >= 0 && radiusY >= 0
    ensures var p := PearsonOf(BlockStats(X, Y, xx, yx, xy, yy, ow, oh, x, y, radiusX, radiusY));
            p.varX >= 0.0 && p.varY >= 0.0
    ensures SignedSquareOf(BlockStats(X, Y, xx, yx, xy, yy, ow, oh, x, y, radiusX, radiusY)).den >= 0.0
  {
    BlockVarianceOfX(X, Y, xx, yx, xy, yy, ow, oh, x, y, radiusX, radiusY);
    BlockVarianceOfY(X, Y, xx, yx, xy, yy, ow, oh, x, y, radiusX, radiusY);
    var s := BlockStats(X, Y, xx, yx, xy, yy, ow, oh, x, y, radiusX, radiusY);
    PearsonVariances(s);
  }

  lemma BlockVarianceOfX(X: Raster, Y: Raster, xx: int, yx: int, xy: int, yy: int, ow: int, oh: int,
                         x: int, y: int, radiusX: int, radiusY: int)
    requires 0 <= xx && 0 <= yx && 0 <= xy && 0 <= yy
    requires 0 <= x < ow && 0 <= y < oh && radiusX >= 0 && radiusY >= 0
    ensures var s := BlockStats(X, Y, xx, yx, xy, yy, ow, oh, x, y, radiusX, radiusY);
            Spread(s.n, s.sumX, s.sumXX) >= 0.0
  {
    var s := BlockStats(X, Y, xx, yx, xy, yy, ow, oh, x, y, radiusX, radiusY);
    var wx, wy := Window(x, radiusX, ow - 1), Window(y, radiusY, oh - 1);
    BlockStatsAreBlockSums(X, Y, xx, yx, xy, yy, ow, oh, x, y, radiusX, radiusY, wx.0, wy.0, wx.1, wy.1);
    ScaledVariance(X, s.n, s.sumX, s.sumXX, wx.0 + 1 + xx, wy.0 + 1 + yx, wx.1 + 1 + xx, wy.1 + 1 + yx);
  }

  lemma BlockVarianceOfY(X: Raster, Y: Raster, xx: int, yx: int, xy: int, yy: int, ow: int, oh: int,
                         x: int, y: int, radiusX: int, radiusY: int)
    requires 0 <= xx && 0 <= yx && 0 <= xy && 0 <= yy
    requires 0 <= x < ow && 0 <= y < oh && radiusX >= 0 && radiusY >= 0
    ensures var s := BlockStats(X, Y, xx, yx, xy, yy, ow, oh, x, y, radiusX, radiusY);
            Spread(s.n, s.sumY, s.sumYY) >= 0.0
  {
    var s := BlockStats(X, Y, xx, yx, xy, yy, ow, oh, x, y, radiusX, radiusY);
    var wx, wy := Window(x, radiusX, ow - 1), Window(y, radiusY, oh - 1);
    BlockStatsAreBlockSums(X, Y, xx, yx, xy, yy, ow, oh, x, y, radiusX, radiusY, wx.0, wy.0, wx.1, wy.1);
    ScaledVariance(Y, s.n, s.sumY, s.sumYY, wx.0 + 1 + xy, wy.0 + 1 + yy, wx.1 + 1 + xy, wy.1 + 1 + yy);
  }

  lemma PearsonVariances(s: Stats)
    requires Spread(s.n, s.sumX, s.sumXX) >= 0.0 && Spread(s.n, s.sumY, s.sumYY) >= 0.0
    ensures PearsonOf(s).varX >= 0.0 && PearsonOf(s).varY >= 0.0 && SignedSquareOf(s).den >= 0.0
  {
    NonnegativeProduct(PearsonOf(s).varX, PearsonOf(s).varY);
  }

  lemma NonnegativeProduct(a: real, b: real)
    requires a >= 0.0 && b >= 0.0
    ensures a * b >= 0.0
  {}

  /** A raster correlated with itself: covariance and both variances
      coincide, so r is 1 wherever the block has variance, and the signed
      square is v^2 / v^2. */
  lemma SelfCorrelation(X: Raster, ow: int, oh: int, x: int, y: int, radiusX: int, radiusY: int)
    requires 0 <= x < ow && 0 <= y < oh && radiusX >= 0 && radiusY >= 0
    ensures SelfCorrelated(BlockStats(X, X, 0, 0, 0, 0, ow, oh, x, y, radiusX, radiusY))
  {
    var s := BlockStats(X, X, 0, 0, 0, 0, ow, oh, x, y, radiusX, radiusY);
    var (xMin, xMax) := Window(x, radiusX, ow - 1);
    var (yMin, yMax) := Window(y, radiusY, oh - 1);
    BlockStatsAt(X, X, 0, 0, 0, 0, ow, oh, x, y, radiusX, radiusY, xMin, yMin, xMax, yMax);
    forall c, r ensures Sample(Products(X, X, 0, 0, 0, 0), c, r) == Sample(Squares(X), c, r) {
    }
    WindowSumCongruent(Products(X, X, 0, 0, 0, 0), Squares(X), xMin, yMin, xMax, yMax);
    BlockVariancesNonnegative(X, X, 0, 0, 0, 0, ow, oh, x, y, radiusX, radiusY);
    SelfPearson(s);
  }

  /** The statistics of a block against itself: the covariance equals both
      variances and is nonnegative, and the signed square is cov^2 / cov^2. */
  predicate SelfCorrelated(s: Stats) {
    var p := PearsonOf(s);
    p.cov == p.varX == p.varY && p.cov >= 0.0 &&
    SignedSquareOf(s) == SignedSquare(p.cov * p.cov, p.cov * p.cov)
  }

  lemma SelfPearson(s: Stats)
    requires s.sumY == s.sumX && s.sumYY == s.sumXX && s.sumXY == s.sumXX
    requires PearsonOf(s).varX >= 0.0
    ensures SelfCorrelated(s)
  {}

  /** Exchanging X and Y together with their offsets exchanges the two
      variances and keeps the covariance, so r and its signed square are
      symmetric. */
  lemma SwappedCorrelation(X: Raster, Y: Raster, xx: int, yx: int, xy: int, yy: int, ow: int, oh: int,
                           x: int, y: int, radiusX: int, radiusY: int)
    ensures var s := BlockStats(X, Y, xx, yx, xy, yy, ow, oh, x, y, radiusX, radiusY);
            var t := BlockStats(Y, X, xy, yy, xx, yx, ow, oh, x, y, radiusX, radiusY);
            t == Stats(s.n, s.sumY, s.sumYY, s.sumX, s.sumXX, s.sumXY) &&
            PearsonOf(t) == Pearson(PearsonOf(s).cov, PearsonOf(s).varY, PearsonOf(s).varX) &&
            SignedSquareOf(t) == SignedSquareOf(s)
  {
    var (xMin, xMax) := Window(x, radiusX, ow - 1);
    var (yMin, yMax) := Window(y, radiusY, oh - 1);
    BlockStatsAt(X, Y, xx, yx, xy, yy, ow, oh, x, y, radiusX, radiusY, xMin, yMin, xMax, yMax);
    BlockStatsAt(Y, X, xy, yy, xx, yx, ow, oh, x, y, radiusX, radiusY, xMin, yMin, xMax, yMax);
    forall c, r ensures Sample(Products(Y, X, xy, yy, xx, yx), c, r) == Sample(Products(X, Y, xx, yx, xy, yy), c, r) {
    }
    WindowSumCongruent(Products(Y, X, xy, yy, xx, yx), Products(X, Y, xx, yx, xy, yy), xMin, yMin, xMax, yMax);
    SwappedPearson(BlockStats(X, Y, xx, yx, xy, yy, ow, oh, x, y, radiusX, radiusY),
                   BlockStats(Y, X, xy, yy, xx, yx, ow, oh, x, y, radiusX, radiusY));
  }

  /** The symmetry of the design: r of X against Y at an offset equals r of
      Y against X at the negated offset, with the two variances exchanged;
      the signed square is the same.  The reading offsets of both orders
      are the ones setOffset derives. */
  lemma SymmetricCorrelation(X: Raster, Y: Raster, offsetX: int, offsetY: int,
                             x: int, y: int, radiusX: int, radiusY: int)
    ensures var hx, hy := OverlapOf(X.width, Y.width, offsetX), OverlapOf(X.height, Y.height, offsetY);
            var sx, sy := OverlapOf(Y.width, X.width, -offsetX), OverlapOf(Y.height, X.height, -offsetY);
            var s := BlockStats(X, Y, hx.inX, hy.inX, hx.inY, hy.inY, hx.size, hy.size, x, y, radiusX, radiusY);
            var t := BlockStats(Y, X, sx.inX, sy.inX, sx.inY, sy.inY, sx.size, sy.size, x, y, radiusX, radiusY);
            PearsonOf(t) == Pearson(PearsonOf(s).cov, PearsonOf(s).varY, PearsonOf(s).varX) &&
            SignedSquareOf(t) == SignedSquareOf(s)
  {
    var hx, hy := OverlapOf(X.width, Y.width, offsetX), OverlapOf(X.height, Y.height, offsetY);
    OverlapSwap(X.width, Y.width, offsetX);
    OverlapSwap(X.height, Y.height, offsetY);
    SwappedCorrelation(X, Y, hx.inX, hy.inX, hx.inY, hy.inY, hx.size, hy.size, x, y, radiusX, radiusY);
  }

  lemma SwappedPearson(s: Stats, t: Stats)
    requires t == Stats(s.n, s.sumY, s.sumYY, s.sumX, s.sumXX, s.sumXY)
    ensures PearsonOf(t) == Pearson(PearsonOf(s).cov, PearsonOf(s).varY, PearsonOf(s).varX)
    ensures SignedSquareOf(t) == SignedSquareOf(s)
  {
    assert s.sumY * s.sumX == s.sumX * s.sumY;
    var p := PearsonOf(s);
    assert p.varY * p.varX == p.varX * p.varY;
  }

  /** The signed square carries the sign of the covariance, its magnitude is
      cov^2, and its denominator is the product of the two variances. */
  lemma SignedSquareOfPearson(s: Stats)
    ensures var p, q := PearsonOf(s), SignedSquareOf(s);
            q.den == p.varX * p.varY &&
            (q.num < 0.0 <==> p.cov < 0.0) && (q.num == 0.0 <==> p.cov == 0.0) &&
            q.num * q.num == (p.cov * p.cov) * (p.cov * p.cov)
  {
    SignedSquareSign(PearsonOf(s).cov);
  }

  lemma SignedSquareSign(a: real)
    ensures var num := if a < 0.0 then -a * a else a * a;
            (num < 0.0 <==> a < 0.0) && (num == 0.0 <==> a == 0.0) && num * num == (a * a) * (a * a)
  {
    if a != 0.0 {
      SameSignProduct(a, a);
    }
  }

  /** x * y, named so that the solver keeps a strict sign fact about a
      square as a fact about this term. */
  function Product(x: real, y: real): real { x * y }

  lemma SameSignProduct(x: real, y: real)
    requires (x > 0.0 && y > 0.0) || (x < 0.0 && y < 0.0)
    ensures Product(x, y) > 0.0
  {}

  /** Radius 0: each block is its own pixel, so the covariance and both
      variances are 0 and r is 0 / 0. */
  lemma RadiusZeroBlock(X: Raster, Y: Raster, xx: int, yx: int, xy: int, yy: int, ow: int, oh: int, x: int, y: int)
    requires 0 <= xx && 0 <= yx && 0 <= xy && 0 <= yy && 0 <= x < ow && 0 <= y < oh
    ensures BlockStats(X, Y, xx, yx, xy, yy, ow, oh, x, y, 0, 0)
         == Stats(1, Sample(Values(X), x + xx, y + yx), Sample(Squares(X), x + xx, y + yx),
                  Sample(Values(Y), x + xy, y + yy), Sample(Squares(Y), x + xy, y + yy),
                  Sample(Products(X, Y, xx, yx, xy, yy), x, y))
    ensures PearsonOf(BlockStats(X, Y, xx, yx, xy, yy, ow, oh, x, y, 0, 0)) == Pearson(0.0, 0.0, 0.0)
  {
    WindowOfRadiusZero(x, ow - 1);
    WindowOfRadiusZero(y, oh - 1);
    BlockStatsAt(X, Y, xx, yx, xy, yy, ow, oh, x, y, 0, 0, x - 1, y - 1, x, y);
    SinglePixelWindow(Values(X), x + xx, y + yx);
    SinglePixelWindow(Squares(X), x + xx, y + yx);
    SinglePixelWindow(Values(Y), x + xy, y + yy);
    SinglePixelWindow(Squares(Y), x + xy, y + yy);
    SinglePixelWindow(Products(X, Y, xx, yx, xy, yy), x, y);
    var a, b := X.Pixel(x + xx, y + yx), Y.Pixel(x + xy, y + yy);
    SquareSample(X, x + xx, y + yx, a);
    SquareSample(Y, x + xy, y + yy, b);
    ProductSample(X, Y, xx, yx, xy, yy, x, y, a, b);
    SinglePixelPearson(BlockStats(X, Y, xx, yx, xy, yy, ow, oh, x, y, 0, 0), a, b);
  }

  /** A one-pixel block has no covariance and no variance. */
  lemma SinglePixelPearson(s: Stats, a: real, b: real)
    requires s == Stats(1, a, a * a, b, b * b, a * b)
    ensures PearsonOf(s) == Pearson(0.0, 0.0, 0.0)
  {}


  /** The rectangle query of an integral image whose cells up to (ow, oh)
      hold prefix sums of q: the sum of q over the window. */
  method WindowQuery(t: array<real>, ghost q: Quantity, width: nat, height: nat, ow: int, oh: int,
                     xMin: int, yMin: int, xMax: int, yMax: int) returns (v: real)
    requires t.Length == (width + 1) * (height + 1) && HoldsPrefix(t[..], q, width, ow, oh)
    requires ow <= width && oh <= height
    requires -1 <= xMin < ow && -1 <= xMax < ow
    requires -1 <= yMin < oh && -1 <= yMax < oh
    ensures v == WindowSum(q, xMin, yMin, xMax, yMax)
  {
    QueryOnPrefix(t[..], q, width, height, ow, oh, xMin, yMin, xMax, yMax);
    v := Query(t[..], width + 1, height + 1, xMin, yMin, xMax, yMax);
  }

  /** A complete table holds prefix sums in every cell. */
  lemma TableHoldsPrefix(t: seq<real>, q: Quantity, width: nat, height: nat)
    requires IsTable(t, q, width, height)
    ensures HoldsPrefix(t, q, width, width, height)
  {}

  // ---------------------------------------------------------------------
  // The correlation engine

  class BlockPMCC {
    const fpX: Raster
    const fpY: Raster
    /** The result raster, fpRWidth x fpRHeight, row by row. */
    const fpR: array<CorrValue>
    const fpRWidth: nat
    const fpRHeight: nat
    /** The tables of X (fpX.width x fpX.height) and of Y: values and
        squares. */
    const sumsX: array<real>
    const sumsXX: array<real>
    const sumsY: array<real>
    const sumsYY: array<real>
    /** The product table, created for xyWidth x xyHeight. */
    const sumsXY: array<real>
    const xyWidth: nat
    const xyHeight: nat
    /** The current overlap and the offsets X and Y are read at. */
    var fpXYWidth: int
    var fpXYHeight: int
    var offsetXX: int
    var offsetYX: int
    var offsetXY: int
    var offsetYY: int

    /** The product quantity for the current offsets. */
    ghost function Products(): Quantity
      reads this
    {
      Quantity.Products(fpX, fpY, offsetXX, offsetYX, offsetXY, offsetYY)
    }

    ghost predicate Valid()
      reads this, sumsX, sumsXX, sumsY, sumsYY, sumsXY
    {
      fpX.Valid() && fpY.Valid() &&
      sumsXY != sumsX && sumsXY != sumsXX && sumsXY != sumsY && sumsXY != sumsYY &&
      IsTable(sumsX[..], Values(fpX), fpX.width, fpX.height) &&
      IsTable(sumsXX[..], Squares(fpX), fpX.width, fpX.height) &&
      IsTable(sumsY[..], Values(fpY), fpY.width, fpY.height) &&
      IsTable(sumsYY[..], Squares(fpY), fpY.width, fpY.height) &&
      xyWidth == Min(fpX.width, fpY.width) && xyHeight == Min(fpX.height, fpY.height) &&
      sumsXY.Length == (xyWidth + 1) * (xyHeight + 1) &&
      xyWidth <= fpRWidth && xyHeight <= fpRHeight &&
      fpR.Length == fpRWidth * fpRHeight && (fpRWidth > 0 || fpR.Length == 0) &&
      0 <= offsetXX && 0 <= offsetXY && 0 <= offsetYX && 0 <= offsetYY &&
      0 <= fpXYWidth && fpXYWidth + offsetXX <= fpX.width && fpXYWidth + offsetXY <= fpY.width &&
      0 <= fpXYHeight && fpXYHeight + offsetYX <= fpX.height && fpXYHeight + offsetYY <= fpY.height &&
      ProductTable(sumsXY[..], Products(), xyWidth, fpXYWidth, fpXYHeight)
    }

    /** Two rasters of the same size; the product table is all zero, for an
        empty overlap, until SetOffset is called. */
    constructor Sized(width: nat, height: nat, fpX: Raster, fpY: Raster)
      requires HasSize(fpX, width, height) && HasSize(fpY, width, height)
      ensures Valid()
      ensures this.fpX == fpX && this.fpY == fpY && fpRWidth == width && fpRHeight == height
      ensures fresh(fpR) && fresh(sumsXY)
      ensures forall k :: 0 <= k < fpR.Length ==> fpR[k] == Zero
      ensures forall k :: 0 <= k < sumsXY.Length ==> sumsXY[k] == 0.0
      ensures fpXYWidth == 0 && fpXYHeight == 0
      ensures offsetXX == 0 && offsetYX == 0 && offsetXY == 0 && offsetYY == 0
    {
      this.fpX := fpX;
      this.fpY := fpY;
      fpR := new CorrValue[width * height](_ => Zero);
      fpRWidth, fpRHeight := width, height;
      var sx, sxx, sy, syy := TablesOfBoth(width, height, fpX, fpY);
      var sxy := EmptyProductTable(fpX, fpY, width, height);
      sumsX, sumsXX, sumsY, sumsYY, sumsXY := sx, sxx, sy, syy, sxy;
      xyWidth, xyHeight := width, height;
      fpXYWidth, fpXYHeight := 0, 0;
      offsetXX, offsetYX, offsetXY, offsetYY := 0, 0, 0, 0;
    }

    /** Two rasters of the same size, with the product table built for the
        given offset. */
    constructor SizedWithOffset(width: nat, height: nat, fpX: Raster, fpY: Raster, offsetX: int, offsetY: int)
      requires HasSize(fpX, width, height) && HasSize(fpY, width, height)
      requires OverlapOf(width, width, offsetX).size >= 1 && OverlapOf(height, height, offsetY).size >= 1
      ensures Valid()
      ensures this.fpX == fpX && this.fpY == fpY && fpRWidth == width && fpRHeight == height
      ensures fresh(fpR) && fresh(sumsXY)
      ensures forall k :: 0 <= k < fpR.Length ==> fpR[k] == Zero
      ensures Overlap(offsetXX, offsetXY, fpXYWidth) == OverlapOf(width, width, offsetX)
      ensures Overlap(offsetYX, offsetYY, fpXYHeight) == OverlapOf(height, height, offsetY)
    {
      this.fpX := fpX;
      this.fpY := fpY;
      fpR := new CorrValue[width * height](_ => Zero);
      fpRWidth, fpRHeight := width, height;
      var sx, sxx, sy, syy := TablesOfBoth(width, height, fpX, fpY);
      var sxy := EmptyProductTable(fpX, fpY, width, height);
      sumsX, sumsXX, sumsY, sumsYY, sumsXY := sx, sxx, sy, syy, sxy;
      xyWidth, xyHeight := width, height;
      fpXYWidth, fpXYHeight := 0, 0;
      offsetXX, offsetYX, offsetXY, offsetYY := 0, 0, 0, 0;
      new;
      SetOffset(offsetX, offsetY);
    }

    /** Two rasters of any sizes: each gets its own tables, the product table
        covers the smaller extent in each direction, and the result raster has
        the size of Y. */
    constructor (fpX: Raster, fpY: Raster)
      requires fpX.Valid() && fpY.Valid()
      ensures Valid()
      ensures this.fpX == fpX && this.fpY == fpY && fpRWidth == fpY.width && fpRHeight == fpY.height
      ensures fresh(fpR) && fresh(sumsXY)
      ensures forall k :: 0 <= k < fpR.Length ==> fpR[k] == Zero
      ensures forall k :: 0 <= k < sumsXY.Length ==> sumsXY[k] == 0.0
      ensures fpXYWidth == 0 && fpXYHeight == 0
      ensures offsetXX == 0 && offsetYX == 0 && offsetXY == 0 && offsetYY == 0
    {
      this.fpX := fpX;
      this.fpY := fpY;
      var widthXY := Min(fpX.width, fpY.width);
      var heightXY := Min(fpX.height, fpY.height);
      fpR := new CorrValue[fpY.width * fpY.height](_ => Zero);
      fpRWidth, fpRHeight := fpY.width, fpY.height;
      var sx, sxx := TablesOf(fpX);
      var sy, syy := TablesOf(fpY);
      var sxy := EmptyProductTable(fpX, fpY, widthXY, heightXY);
      sumsX, sumsXX, sumsY, sumsYY, sumsXY := sx, sxx, sy, syy, sxy;
      xyWidth, xyHeight := widthXY, heightXY;
      fpXYWidth, fpXYHeight := 0, 0;
      offsetXX, offsetYX, offsetXY, offsetYY := 0, 0, 0, 0;
    }

    /** Two rasters of any sizes, with the product table built for the given
        offset. */
    constructor WithOffset(fpX: Raster, fpY: Raster, offsetX: int, offsetY: int)
      requires fpX.Valid() && fpY.Valid()
      requires OverlapOf(fpX.width, fpY.width, offsetX).size >= 1 && OverlapOf(fpX.height, fpY.height, offsetY).size >= 1
      ensures Valid()
      ensures this.fpX == fpX && this.fpY == fpY && fpRWidth == fpY.width && fpRHeight == fpY.height
      ensures fresh(fpR) && fresh(sumsXY)
      ensures forall k :: 0 <= k < fpR.Length ==> fpR[k] == Zero
      ensures Overlap(offsetXX, offsetXY, fpXYWidth) == OverlapOf(fpX.width, fpY.width, offsetX)
      ensures Overlap(offsetYX, offsetYY, fpXYHeight) == OverlapOf(fpX.height, fpY.height, offsetY)
    {
      this.fpX := fpX;
      this.fpY := fpY;
      var widthXY := Min(fpX.width, fpY.width);
      var heightXY := Min(fpX.height, fpY.height);
      fpR := new CorrValue[fpY.width * fpY.height](_ => Zero);
      fpRWidth, fpRHeight := fpY.width, fpY.height;
      var sx, sxx := TablesOf(fpX);
      var sy, syy := TablesOf(fpY);
      var sxy := EmptyProductTable(fpX, fpY, widthXY, heightXY);
      sumsX, sumsXX, sumsY, sumsYY, sumsXY := sx, sxx, sy, syy, sxy;
      xyWidth, xyHeight := widthXY, heightXY;
      fpXYWidth, fpXYHeight := 0, 0;
      offsetXX, offsetYX, offsetXY, offsetYY := 0, 0, 0, 0;
      new;
      SetOffset(offsetX, offsetY);
    }

    /** Sets the offset of Y against X and rebuilds the product table over
        the new overlap; cells outside it keep their old values. */
    method SetOffset(offsetX: int, offsetY: int)
      requires Valid()
      requires OverlapOf(fpX.width, fpY.width, offsetX).size >= 1 && OverlapOf(fpX.height, fpY.height, offsetY).size >= 1
      modifies this, sumsXY
      ensures Valid()
      ensures Overlap(offsetXX, offsetXY, fpXYWidth) == OverlapOf(fpX.width, fpY.width, offsetX)
      ensures Overlap(offsetYX, offsetYY, fpXYHeight) == OverlapOf(fpX.height, fpY.height, offsetY)
      ensures forall k :: 0 <= k < sumsXY.Length ==>
        sumsXY[k] == (if InOverlap(k % (xyWidth + 1), k / (xyWidth + 1), fpXYWidth, fpXYHeight)
                     then Prefix(Products(), k % (xyWidth + 1), k / (xyWidth + 1)) else old(sumsXY[k]))
    {
      ghost var o, q0, ow0, oh0 := sumsXY[..], Products(), fpXYWidth, fpXYHeight;
      var inX := OverlapOf(fpX.width, fpY.width, offsetX);
      var inY := OverlapOf(fpX.height, fpY.height, offsetY);
      offsetXX, offsetXY, fpXYWidth := inX.inX, inX.inY, inX.size;
      offsetYX, offsetYY, fpXYHeight := inY.inX, inY.inY, inY.size;
      // the stride is that of the product table, not of the result raster
      RebuildProducts(sumsXY, fpX, fpY, offsetXX, offsetYX, offsetXY, offsetYY, fpXYWidth, fpXYHeight,
                      xyWidth + 1, xyHeight + 1);
      ghost var q := Products();
      RebuiltDone(sumsXY[..], o, q, q0, xyWidth, fpXYWidth, fpXYHeight, ow0, oh0);
    }

    /** The block statistics around overlap pixel (x, y) for the current
        offset. */
    ghost function Block(x: int, y: int, blockRadiusX: int, blockRadiusY: int): Stats
      reads this
    {
      BlockStats(fpX, fpY, offsetXX, offsetYX, offsetXY, offsetYY, fpXYWidth, fpXYHeight, x, y, blockRadiusX, blockRadiusY)
    }

    /** What r (or rSignedSquare) writes to each pixel of the result raster
        it reaches. */
    ghost function Target(m: Measure, blockRadiusX: int, blockRadiusY: int): seq<CorrValue>
      reads this
    {
      var width, X, Y, xx, yx, xy, yy, ow, oh := fpRWidth, fpX, fpY, offsetXX, offsetYX, offsetXY, offsetYY, fpXYWidth, fpXYHeight;
      seq(fpR.Length, k requires 0 <= k =>
        if width == 0 then Zero
        else ValueOf(m, BlockStats(X, Y, xx, yx, xy, yy, ow, oh, k % width, k / width, blockRadiusX, blockRadiusY)))
    }

    /** The five block sums around overlap pixel (x, y), read off the five
        tables with one rectangle query each. */
    method BlockQueries(x: int, y: int, blockRadiusX: int, blockRadiusY: int) returns (s: Stats)
      requires Valid()
      requires 0 <= x < fpXYWidth && 0 <= y < fpXYHeight && blockRadiusX >= 0 && blockRadiusY >= 0
      ensures s == Block(x, y, blockRadiusX, blockRadiusY)
    {
      var w := fpXYWidth - 1;
      var h := fpXYHeight - 1;
      var yMin := Max(-1, y - blockRadiusY - 1);
      var yMax := Min(h, y + blockRadiusY);
      var xMin := Max(-1, x - blockRadiusX - 1);
      var xMax := Min(w, x + blockRadiusX);
      var xMinX, xMaxX, yMinX, yMaxX := xMin + offsetXX, xMax + offsetXX, yMin + offsetYX, yMax + offsetYX;
      var xMinY, xMaxY, yMinY, yMaxY := xMin + offsetXY, xMax + offsetXY, yMin + offsetYY, yMax + offsetYY;
      var n := (xMax - xMin) * (yMax - yMin);
      TableHoldsPrefix(sumsX[..], Values(fpX), fpX.width, fpX.height);
      TableHoldsPrefix(sumsXX[..], Squares(fpX), fpX.width, fpX.height);
      TableHoldsPrefix(sumsY[..], Values(fpY), fpY.width, fpY.height);
      TableHoldsPrefix(sumsYY[..], Squares(fpY), fpY.width, fpY.height);

      var sumX := WindowQuery(sumsX, Values(fpX), fpX.width, fpX.height, fpX.width, fpX.height, xMinX, yMinX, xMaxX, yMaxX);
      var sumXX := WindowQuery(sumsXX, Squares(fpX), fpX.width, fpX.height, fpX.width, fpX.height, xMinX, yMinX, xMaxX, yMaxX);
      var sumY := WindowQuery(sumsY, Values(fpY), fpY.width, fpY.height, fpY.width, fpY.height, xMinY, yMinY, xMaxY, yMaxY);
      var sumYY := WindowQuery(sumsYY, Squares(fpY), fpY.width, fpY.height, fpY.width, fpY.height, xMinY, yMinY, xMaxY, yMaxY);
      var sumXY := WindowQuery(sumsXY, Products(), xyWidth, xyHeight, fpXYWidth, fpXYHeight, xMin, yMin, xMax, yMax);
      s := Stats(n, sumX, sumXX, sumY, sumYY, sumXY);
      StatsOfWindows(fpX, fpY, offsetXX, offsetYX, offsetXY, offsetYY, fpXYWidth, fpXYHeight,
                     x, y, blockRadiusX, blockRadiusY, xMin, yMin, xMax, yMax, s);
    }

    /** Writes the target value of result pixel (x, y), the cursor cell. */
    method Paint(ghost m: Measure, blockRadiusX: int, blockRadiusY: int, ghost o: seq<CorrValue>,
                 x: int, y: int, v: CorrValue)
      requires Valid() && 0 <= x < fpXYWidth && 0 <= y < fpXYHeight
      requires Painted(fpR[..], o, Target(m, blockRadiusX, blockRadiusY), fpRWidth, fpXYWidth, fpXYHeight, x, y)
      requires v == ValueOf(m, Block(x, y, blockRadiusX, blockRadiusY))
      modifies fpR
      ensures Painted(fpR[..], o, Target(m, blockRadiusX, blockRadiusY), fpRWidth, fpXYWidth, fpXYHeight, x + 1, y)
    {
      ghost var a0 := fpR[..];
      ghost var t := Target(m, blockRadiusX, blockRadiusY);
      PaintedStep(a0, o, t, fpRWidth, fpRHeight, fpXYWidth, fpXYHeight, x, y);
      CellDivMod(x, y, fpRWidth);
      fpR[y * fpRWidth + x] := v;
      assert fpR[..] == a0[y * fpRWidth + x := t[y * fpRWidth + x]];
    }

    /** Sets every pixel of the overlap in the result raster to the block
        correlation of X and Y there (the other pixels keep their values). */
    method R(blockRadiusX: int, blockRadiusY: int)
      requires Valid() && blockRadiusX >= 0 && blockRadiusY >= 0
      modifies fpR
      ensures Valid()
      ensures forall k :: 0 <= k < fpR.Length ==>
        fpR[k] == (if k % fpRWidth < fpXYWidth && k / fpRWidth < fpXYHeight
                   then PearsonOf(Block(k % fpRWidth, k / fpRWidth, blockRadiusX, blockRadiusY))
                   else old(fpR[k]))
    {
      Fill(Correlation, blockRadiusX, blockRadiusY);
    }

    /** r with the same radius in both directions. */
    method RWithRadius(blockRadius: int)
      requires Valid() && blockRadius >= 0
      modifies fpR
      ensures Valid()
      ensures forall k :: 0 <= k < fpR.Length ==>
        fpR[k] == (if k % fpRWidth < fpXYWidth && k / fpRWidth < fpXYHeight
                   then PearsonOf(Block(k % fpRWidth, k / fpRWidth, blockRadius, blockRadius))
                   else old(fpR[k]))
    {
      R(blockRadius, blockRadius);
    }

    /** Sets every pixel of the overlap in the result raster to the signed
        square of the block correlation there. */
    method RSignedSquare(blockRadiusX: int, blockRadiusY: int)
      requires Valid() && blockRadiusX >= 0 && blockRadiusY >= 0
      modifies fpR
      ensures Valid()
      ensures forall k :: 0 <= k < fpR.Length ==>
        fpR[k] == (if k % fpRWidth < fpXYWidth && k / fpRWidth < fpXYHeight
                   then SignedSquareOf(Block(k % fpRWidth, k / fpRWidth, blockRadiusX, blockRadiusY))
                   else old(fpR[k]))
    {
      Fill(SignedSquareCorrelation, blockRadiusX, blockRadiusY);
    }

    /** rSignedSquare with the same radius in both directions. */
    method RSignedSquareWithRadius(blockRadius: int)
      requires Valid() && blockRadius >= 0
      modifies fpR
      ensures Valid()
      ensures forall k :: 0 <= k < fpR.Length ==>
        fpR[k] == (if k % fpRWidth < fpXYWidth && k / fpRWidth < fpXYHeight
                   then SignedSquareOf(Block(k % fpRWidth, k / fpRWidth, blockRadius, blockRadius))
                   else old(fpR[k]))
    {
      RSignedSquare(blockRadius, blockRadius);
    }

    /** The loop r and rSignedSquare share: row by row over the overlap,
        each pixel gets the measure of its block. */
    method Fill(m: Measure, blockRadiusX: int, blockRadiusY: int)
      requires Valid() && blockRadiusX >= 0 && blockRadiusY >= 0
      modifies fpR
      ensures Valid()
      ensures forall k :: 0 <= k < fpR.Length ==>
        fpR[k] == (if k % fpRWidth < fpXYWidth && k / fpRWidth < fpXYHeight
                   then ValueOf(m, Block(k % fpRWidth, k / fpRWidth, blockRadiusX, blockRadiusY))
                   else old(fpR[k]))
    {
      ghost var o := fpR[..];
      ghost var t := Target(m, blockRadiusX, blockRadiusY);
      PaintedStart(o, t, fpRWidth, fpXYWidth, fpXYHeight);
      var w := fpXYWidth - 1;
      var h := fpXYHeight - 1;
      var y := 0;
      while y <= h
        invariant 0 <= y <= fpXYHeight
        invariant Painted(fpR[..], o, t, fpRWidth, fpXYWidth, fpXYHeight, 0, y)
      {
        FillRow(m, blockRadiusX, blockRadiusY, o, w, y);
        PaintedNextRow(fpR[..], o, t, fpRWidth, fpXYWidth, fpXYHeight, y);
        y := y + 1;
      }
    }

    /** One pass of Fill's outer loop: row y of the overlap, after the rows
        above it. */
    method FillRow(m: Measure, blockRadiusX: int, blockRadiusY: int, ghost o: seq<CorrValue>, w: int, y: int)
      requires Valid() && blockRadiusX >= 0 && blockRadiusY >= 0 && w == fpXYWidth - 1 && 0 <= y < fpXYHeight
      requires Painted(fpR[..], o, Target(m, blockRadiusX, blockRadiusY), fpRWidth, fpXYWidth, fpXYHeight, 0, y)
      modifies fpR
      ensures Painted(fpR[..], o, Target(m, blockRadiusX, blockRadiusY), fpRWidth, fpXYWidth, fpXYHeight, fpXYWidth, y)
    {
      var x := 0;
      while x <= w
        invariant 0 <= x <= fpXYWidth
        invariant Painted(fpR[..], o, Target(m, blockRadiusX, blockRadiusY), fpRWidth, fpXYWidth, fpXYHeight, x, y)
      {
        var s := BlockQueries(x, y, blockRadiusX, blockRadiusY);
        var v := match m
          case Correlation => PearsonOf(s)
          case SignedSquareCorrelation => SignedSquareOf(s);
        Paint(m, blockRadiusX, blockRadiusY, o, x, y, v);
        x := x + 1;
      }
    }
  }
}
