# Integral-image filters of mpicbg, modelled in Dafny

This project models three filters from the `mpicbg.ij.integral` package. All three compute windowed sums over summed-area ("integral") tables:

- **BlockPMCC** (`correlation.dfy`). Block-wise Pearson correlation of two rasters X and Y.
  - It keeps five tables: the sums and sums of squares of X and of Y, and the sums of the products X·Y at the current relative offset.
  - `setOffset` turns a signed offset into the overlap of the two rasters. It then rebuilds the product table in place.
  - `r` and `rSignedSquare` give each overlap pixel r, or r² carrying the sign of r, for the block of the given radius around it.
- **Scale** (`scaling.dfy`). Box-filter rescaling. Each pixel of a width × height target is the mean of the source window that its edges cover. The window is rounded half away from zero and clamped to the source.
- **Tilt** (`tilting.dfy`). A box blur whose radius grows with the distance from a line. It overwrites its image in place. Every value is read from the table built when the filter was created.

`integral.dfy` holds what the three share:
- rasters;
- the quantities the tables accumulate (values, squares, offset products);
- `Prefix`, the meaning of a table cell;
- the rectangle query and the scaled query;
- the clamped windows `max(-1, p - r - 1) .. min(last, p + r)`;
- the dispatch from processor kind to integral-image kind.

Samples and table entries are `real`s with exact arithmetic. Integers are unbounded. The integral-image classes (`DoubleIntegralImage`, `LongIntegralImage`, `LongRGBIntegralImage`) are not modelled here. Their tables are modelled by their meaning (`TableOf`), and their queries by `Query`/`ScaledSum`: the sum over columns xMin+1..xMax and rows yMin+1..yMax, times the scale.

Each imperative method is proved against a specification function:
- `BlockPMCC.R` writes `PearsonOf(Block(x, y, ...))` into each overlap pixel and leaves every other pixel as it was.
- `Scale.ScaleTo` returns exactly `Scaled(ip, width, height)`.
- `Tilt.Render` leaves `ip[..] == Tilted(source, ...)`, where `source` is the image at construction.

The properties the code promises are then lemmas about those functions.

## Model

| member | source | states |
|---|---|---|
| Integral.PrefixBorder | mpicbg/src/main/java/mpicbg/ij/integral/BlockPMCC.java:183-187 | row 0 and column 0 of every table are zero |
| Integral.WindowSumIsBoxSum | mpicbg/src/main/java/mpicbg/ij/integral/BlockPMCC.java:421-427 | for an ordered window the four-cell query is the sum over columns xMin+1..xMax, rows yMin+1..yMax |
| Integral.SinglePixelWindow | mpicbg/src/main/java/mpicbg/ij/integral/Tilt.java:122-128 | the window (x-1, y-1, x, y) returns pixel (x, y) |
| Integral.PrefixStep | mpicbg/src/main/java/mpicbg/ij/integral/BlockPMCC.java:372 | the 2-D recurrence T[y][x] = T[y-1][x] + T[y][x-1] + v − T[y-1][x-1] holds for prefix sums |
| Integral.PrefixFirstRow | mpicbg/src/main/java/mpicbg/ij/integral/BlockPMCC.java:345-353 | the first table row is the running sum of pixel row 0 |
| Integral.PrefixFirstColumn | mpicbg/src/main/java/mpicbg/ij/integral/BlockPMCC.java:359-363 | the first column of each row is the cell above plus one sample |
| Integral.Query | mpicbg/src/main/java/mpicbg/ij/integral/BlockPMCC.java:423-427 | definition (no ensures): the four-corner rectangle query t(xMax+1, yMax+1) − t(xMin+1, yMax+1) − t(xMax+1, yMin+1) + t(xMin+1, yMin+1) on a row-major table, for corners in [−1, stride−2] × [−1, rows−2]; its meaning is stated by QueryOnPrefix and QueryIsWindowSum |
| Integral.QueryOnPrefix | mpicbg/src/main/java/mpicbg/ij/integral/BlockPMCC.java:427 | the query on a table whose cells up to (ow, oh) hold prefix sums equals the window sum for every window inside the overlap |
| Integral.QueryIsWindowSum | mpicbg/src/main/java/mpicbg/ij/integral/BlockPMCC.java:423-426 | the query on a complete table equals the window sum for every in-range window |
| Integral.ScaledSum | mpicbg/src/main/java/mpicbg/ij/integral/Scale.java:111 | the scaled query returns the window sum of the source times the given scale |
| Integral.WindowMeanIsMean | mpicbg/src/main/java/mpicbg/ij/integral/Scale.java:110-111 | on a nonempty window, the mean times the pixel count is the window sum |
| Integral.MeanOfSum | mpicbg/src/main/java/mpicbg/ij/integral/Scale.java:110 | a sum scaled by 1 / bw / bh, times bw·bh, is the sum again |
| Integral.Factor | mpicbg/src/main/java/mpicbg/ij/integral/Tilt.java:127 | definition (no ensures): the scale 1 / bw / bh that Scale.java:110 and Tilt.java:127 pass to the scaled sum, and 0 for an empty window; FactorIsReciprocalArea states that it is the reciprocal of the area |
| Integral.FactorIsReciprocalArea | mpicbg/src/main/java/mpicbg/ij/integral/Tilt.java:127 | 1 / bw / bh times bw·bh is 1 for bw, bh ≥ 1 |
| Integral.WindowLow | mpicbg/src/main/java/mpicbg/ij/integral/BlockPMCC.java:403 | definition (no ensures): the low query corner max(−1, p − radius − 1) of the window around p, as at BlockPMCC.java:403 and 414 and Tilt.java:122 and 125 |
| Integral.WindowHigh | mpicbg/src/main/java/mpicbg/ij/integral/BlockPMCC.java:404 | definition (no ensures): the high query corner min(last, p + radius), as at BlockPMCC.java:404 and 415 and Tilt.java:123 and 126; WindowBounds bounds both corners |
| Integral.WindowBounds | mpicbg/src/main/java/mpicbg/ij/integral/BlockPMCC.java:403-404 | for 0 ≤ p ≤ last and r ≥ 0 the clamped window satisfies −1 ≤ low < p ≤ high ≤ last, with 1 ≤ high − low ≤ 2r + 1 |
| Integral.WindowOfRadiusZero | mpicbg/src/main/java/mpicbg/ij/integral/BlockPMCC.java:414-415 | radius 0 gives the one-pixel window (p − 1, p) |
| Integral.TableCell | mpicbg/src/main/java/mpicbg/ij/integral/BlockPMCC.java:63-103 | cell (i, j) of a table, at index j·(W + 1) + i, lies inside it and holds the prefix sum; row 0 and column 0 are 0 |
| Integral.WindowSumCongruent | mpicbg/src/main/java/mpicbg/ij/integral/BlockPMCC.java:423-427 | quantities with equal samples have equal window sums |
| Integral.BoxDeviation | mpicbg/src/main/java/mpicbg/ij/integral/BlockPMCC.java:430 | for any t, the sum of squared deviations from t over a box, expanded as Σv² − 2tΣv + n·t², is ≥ 0 |
| Integral.BoxVarianceNonnegative | mpicbg/src/main/java/mpicbg/ij/integral/BlockPMCC.java:430 | for a nonempty box of n pixels, n·Σv² − (Σv)² ≥ 0, so the square roots of r get nonnegative arguments |
| Integral.VarianceFromDeviation | mpicbg/src/main/java/mpicbg/ij/integral/BlockPMCC.java:489 | if that expanded deviation at the mean s / n is ≥ 0, then n·Σv² − (Σv)² ≥ 0 |
| Integral.IntegralFor | mpicbg/src/main/java/mpicbg/ij/integral/Scale.java:56-78 | colour → LongRGB, byte and short → Long, float → Double, any other kind → none |
| Correlation.RowPassStart | mpicbg/src/main/java/mpicbg/ij/integral/BlockPMCC.java:183-186 | a fresh all-zero table is the row pass before its first cell |
| Correlation.RowPassStep | mpicbg/src/main/java/mpicbg/ij/integral/BlockPMCC.java:81-87 | storing rowSum into cell (i+1, j) advances the row pass and changes no other cell |
| Correlation.RowPassNextRow | mpicbg/src/main/java/mpicbg/ij/integral/BlockPMCC.java:75-88 | at the end of a row the row pass moves to the next row |
| Correlation.ColumnPassStart | mpicbg/src/main/java/mpicbg/ij/integral/BlockPMCC.java:90-91 | the finished row pass is the column pass before its first cell |
| Correlation.ColumnPassStep | mpicbg/src/main/java/mpicbg/ij/integral/BlockPMCC.java:95-100 | adding the cell above to cell (i+1, j) turns its row sum into the prefix sum and changes no other cell |
| Correlation.ColumnPassNextRow | mpicbg/src/main/java/mpicbg/ij/integral/BlockPMCC.java:91-102 | at the end of a row the column pass moves to the next row |
| Correlation.ColumnPassDone | mpicbg/src/main/java/mpicbg/ij/integral/BlockPMCC.java:91-102 | the finished column pass is the summed-area table |
| Correlation.SumAndSumOfSquares | mpicbg/src/main/java/mpicbg/ij/integral/BlockPMCC.java:63-103 | from zeroed arrays, builds the tables of the raster's values and of its squares |
| Correlation.SumRows | mpicbg/src/main/java/mpicbg/ij/integral/BlockPMCC.java:74-88 | from all-zero tables, the row pass leaves in each cell (i, j) with i, j ≥ 1 the sum of row j − 1 over its first i pixels, for values and squares; the border stays 0 |
| Correlation.SumColumns | mpicbg/src/main/java/mpicbg/ij/integral/BlockPMCC.java:90-102 | from the finished row pass, the column pass leaves the prefix sum in every cell of both tables |
| Correlation.SumAndSumOfSquaresOfBoth | mpicbg/src/main/java/mpicbg/ij/integral/BlockPMCC.java:105-157 | the paired builder yields, for each raster, the same two tables the single builder does |
| Correlation.SumRowsOfBoth | mpicbg/src/main/java/mpicbg/ij/integral/BlockPMCC.java:118-140 | the row pass over the four tables of both rasters at once; each table ends as the single-raster row pass leaves it |
| Correlation.SumColumnsOfBoth | mpicbg/src/main/java/mpicbg/ij/integral/BlockPMCC.java:142-156 | the column pass over the four tables at once; each table ends holding its prefix sums |
| Correlation.TablesOf | mpicbg/src/main/java/mpicbg/ij/integral/BlockPMCC.java:247-254 | fresh, distinct tables of a raster's values and squares |
| Correlation.TablesOfBoth | mpicbg/src/main/java/mpicbg/ij/integral/BlockPMCC.java:183-189 | four fresh, distinct tables of two equal-size rasters |
| Correlation.EmptyProductTable | mpicbg/src/main/java/mpicbg/ij/integral/BlockPMCC.java:251 | a fresh product table of (width + 1)·(height + 1) cells: every cell is 0, so it is the product table of an empty overlap |
| Correlation.OverlapOf | mpicbg/src/main/java/mpicbg/ij/integral/BlockPMCC.java:303-334 | offsetXX = max(0, −offset), offsetXY = max(0, offset), size = min(dimX − offsetXX, dimY − offsetXY) |
| Correlation.OverlapSwap | mpicbg/src/main/java/mpicbg/ij/integral/BlockPMCC.java:303-334 | swapping the rasters and negating the offset exchanges the two start positions and keeps the size |
| Correlation.OverlapNonempty | mpicbg/src/main/java/mpicbg/ij/integral/BlockPMCC.java:318 | the overlap is nonempty iff both rasters are and −dimX < offset < dimY |
| Correlation.ZeroProductTable | mpicbg/src/main/java/mpicbg/ij/integral/BlockPMCC.java:187 | an all-zero table is the product table of the empty overlap |
| Correlation.RebuiltRead | mpicbg/src/main/java/mpicbg/ij/integral/BlockPMCC.java:363-372 | during the rebuild, an overlap cell already passed holds its prefix sum |
| Correlation.RebuiltStep | mpicbg/src/main/java/mpicbg/ij/integral/BlockPMCC.java:352-372 | writing the cursor cell's prefix sum advances the rebuild and changes no other cell |
| Correlation.RebuiltNextRow | mpicbg/src/main/java/mpicbg/ij/integral/BlockPMCC.java:354-375 | past the last overlap column the rebuild moves to the next row |
| Correlation.RebuiltDone | mpicbg/src/main/java/mpicbg/ij/integral/BlockPMCC.java:342-375 | after the rebuild the table is the product table of the new overlap: overlap cells hold prefix sums of the new products, every other cell keeps its old value |
| Correlation.RebuiltAll | mpicbg/src/main/java/mpicbg/ij/integral/BlockPMCC.java:354-375 | once the cursor has passed the last overlap row, every overlap cell is rebuilt |
| Correlation.RebuiltTable | mpicbg/src/main/java/mpicbg/ij/integral/BlockPMCC.java:342-375 | a table rebuilt over the overlap of an old product table is the product table of the new overlap |
| Correlation.RebuiltCell | mpicbg/src/main/java/mpicbg/ij/integral/BlockPMCC.java:342-375 | per cell: an overlap cell got its prefix sum, a border cell kept its zero |
| Correlation.StoreProduct | mpicbg/src/main/java/mpicbg/ij/integral/BlockPMCC.java:352 | one store of the rebuild advances the cursor |
| Correlation.AsWrittenIndex | mpicbg/src/main/java/mpicbg/ij/integral/BlockPMCC.java:339-352 | definition (no ensures): the index r·(fpR.width + 1) + c at which setOffset as written stores product cell (c, r), with its stride w = fpR.getWidth() + 1; AsWrittenIndexShift, AsWrittenOverrun and AsWrittenIndexAgrees state what it does |
| Correlation.AsWrittenIndexShift | mpicbg/src/main/java/mpicbg/ij/integral/BlockPMCC.java:339 | with the stride fpR.width + 1 as written, a result raster wider than the product table shifts every stored cell past the place the query reads it |
| Correlation.AsWrittenOverrun | mpicbg/src/main/java/mpicbg/ij/integral/BlockPMCC.java:339-352 | X is 1×1, Y is 2×1, offset (0, 0): the first store as written lands one past the last cell of the product table |
| Correlation.AsWrittenIndexAgrees | mpicbg/src/main/java/mpicbg/ij/integral/BlockPMCC.java:339 | where the result raster is as wide as the product table (both equal-size constructors, or widthY ≤ widthX), the as-written stride is the product table's own, so the corrected rebuild is the source as written there |
| Correlation.ProductCellInRange | mpicbg/src/main/java/mpicbg/ij/integral/BlockPMCC.java:251 | with the product table's own stride, every overlap cell lies inside it |
| Correlation.RebuildProducts | mpicbg/src/main/java/mpicbg/ij/integral/BlockPMCC.java:344-375 | rebuilds cells (1, 1)..(ow, oh) to prefix sums of X·Y at the offsets, and leaves every other cell as it was |
| Correlation.RebuildFirstRow | mpicbg/src/main/java/mpicbg/ij/integral/BlockPMCC.java:344-353 | the first overlap row gets running sums of products; samples are read inside both rasters |
| Correlation.RebuildRow | mpicbg/src/main/java/mpicbg/ij/integral/BlockPMCC.java:354-375 | overlap row y + 1 via the 2-D recurrence; samples are read inside both rasters |
| Correlation.ProductSample | mpicbg/src/main/java/mpicbg/ij/integral/BlockPMCC.java:369-372 | the product read at (c, r) is the sample of the product quantity |
| Correlation.PixelAt | mpicbg/src/main/java/mpicbg/ij/integral/BlockPMCC.java:347-348 | the flat index r·width + c of an in-range pixel is inside the raster and holds pixel (c, r) |
| Correlation.BlockWindow | mpicbg/src/main/java/mpicbg/ij/integral/BlockPMCC.java:403-421 | for radii ≥ 0: −1 ≤ xMin < x ≤ xMax < ow (likewise y), and 1 ≤ n ≤ (2rx+1)(2ry+1) |
| Correlation.BlockStats | mpicbg/src/main/java/mpicbg/ij/integral/BlockPMCC.java:403-427 | definition (no ensures): the pixel count n = (xMax − xMin)·bh and the five window sums ΣX, ΣX², ΣY, ΣY², ΣXY of the block around (x, y), with X and Y read at their offsets; BlockStatsAreBlockSums states what they sum |
| Correlation.PearsonOf | mpicbg/src/main/java/mpicbg/ij/integral/BlockPMCC.java:429-432 | definition (no ensures): r kept as the triple a = n·ΣXY − ΣX·ΣY, n·ΣX² − (ΣX)², n·ΣY² − (ΣY)², meaning a / (√varX·√varY); PearsonVariances, SelfPearson and SwappedPearson state its properties |
| Correlation.BlockStatsAreBlockSums | mpicbg/src/main/java/mpicbg/ij/integral/BlockPMCC.java:403-427 | each block statistic is the sum of its quantity over exactly the block's pixels, with X and Y at their offsets |
| Correlation.ShiftedWindowIsBox | mpicbg/src/main/java/mpicbg/ij/integral/BlockPMCC.java:405-419 | a window shifted by the read offset sums the shifted box |
| Correlation.ScaledVariance | mpicbg/src/main/java/mpicbg/ij/integral/BlockPMCC.java:430 | over a nonempty box of n pixels, n·Σv² − (Σv)² ≥ 0 |
| Correlation.BlockVariancesNonnegative | mpicbg/src/main/java/mpicbg/ij/integral/BlockPMCC.java:430 | both scaled variances of a block are ≥ 0, and so is the denominator of the signed square |
| Correlation.BlockVarianceOfX | mpicbg/src/main/java/mpicbg/ij/integral/BlockPMCC.java:430 | X's scaled block variance is ≥ 0 |
| Correlation.BlockVarianceOfY | mpicbg/src/main/java/mpicbg/ij/integral/BlockPMCC.java:430 | Y's scaled block variance is ≥ 0 |
| Correlation.PearsonVariances | mpicbg/src/main/java/mpicbg/ij/integral/BlockPMCC.java:489 | n·Σv² − (Σv)² ≥ 0 for X and for Y make both variances and the signed-square denominator nonnegative |
| Correlation.SelfCorrelation | mpicbg/src/main/java/mpicbg/ij/integral/BlockPMCC.java:488-494 | X against itself at offset 0: the covariance equals both variances and is ≥ 0, and the signed square is v²/v², so r is 1 wherever the variance is nonzero |
| Correlation.SelfPearson | mpicbg/src/main/java/mpicbg/ij/integral/BlockPMCC.java:429-430 | equal sums of X and Y with ΣXY = ΣXX and a nonnegative variance make a block self-correlated |
| Correlation.SwappedCorrelation | mpicbg/src/main/java/mpicbg/ij/integral/BlockPMCC.java:423-430 | exchanging X and Y with their offsets exchanges the variances and keeps the covariance and the signed square |
| Correlation.SymmetricCorrelation | mpicbg/src/main/java/mpicbg/ij/integral/BlockPMCC.java:303-334 | with the reading offsets setOffset derives, r of X against Y at (ox, oy) equals r of Y against X at (−ox, −oy) with the variances exchanged; the signed squares are equal |
| Correlation.SwappedPearson | mpicbg/src/main/java/mpicbg/ij/integral/BlockPMCC.java:429-430 | the same exchange on the statistics alone |
| Correlation.SignedSquareOf | mpicbg/src/main/java/mpicbg/ij/integral/BlockPMCC.java:488-494 | definition (no ensures): −a·a / b where a < 0 and a·a / b otherwise, with b the product of the two variances, kept as a numerator and denominator; SignedSquareOfPearson and SignedSquareSign state its properties |
| Correlation.SignedSquareOfPearson | mpicbg/src/main/java/mpicbg/ij/integral/BlockPMCC.java:488-494 | the signed square's numerator has the sign of a = n·ΣXY − ΣX·ΣY, is zero iff a is, and has magnitude a²; its denominator is the product of the variances |
| Correlation.SignedSquareSign | mpicbg/src/main/java/mpicbg/ij/integral/BlockPMCC.java:491-494 | −a·a for a < 0, else a·a: has the sign of a and magnitude a² |
| Correlation.RadiusZeroBlock | mpicbg/src/main/java/mpicbg/ij/integral/BlockPMCC.java:403-430 | at radius 0 each block is its own pixel, and covariance and variances are 0 |
| Correlation.SinglePixelPearson | mpicbg/src/main/java/mpicbg/ij/integral/BlockPMCC.java:429-430 | a one-pixel block has zero covariance and variances |
| Correlation.WindowQuery | mpicbg/src/main/java/mpicbg/ij/integral/BlockPMCC.java:423-427 | the query on a table that holds prefix sums up to the overlap returns the window sum |
| Correlation.PaintedStart | mpicbg/src/main/java/mpicbg/ij/integral/BlockPMCC.java:399 | before the first pixel nothing is painted |
| Correlation.PaintedStep | mpicbg/src/main/java/mpicbg/ij/integral/BlockPMCC.java:432 | writing the cursor pixel's value advances the cursor and changes no other pixel |
| Correlation.PaintedNextRow | mpicbg/src/main/java/mpicbg/ij/integral/BlockPMCC.java:399-434 | past the last overlap column painting moves to the next row |
| Correlation.BlockPMCC.Sized | mpicbg/src/main/java/mpicbg/ij/integral/BlockPMCC.java:172-196 | equal-size rasters: the four tables are built, every cell of the product table is 0, the result raster is zero, and all six overlap fields are 0 |
| Correlation.BlockPMCC.SizedWithOffset | mpicbg/src/main/java/mpicbg/ij/integral/BlockPMCC.java:209-220 | the same, followed by setOffset: the overlap fields are those OverlapOf gives |
| Correlation.BlockPMCC.constructor | mpicbg/src/main/java/mpicbg/ij/integral/BlockPMCC.java:233-261 | rasters of any sizes: each gets its own tables, the product table covers min widths × min heights and every one of its cells is 0, the result raster has Y's size and is zero, and all six overlap fields are 0 |
| Correlation.BlockPMCC.WithOffset | mpicbg/src/main/java/mpicbg/ij/integral/BlockPMCC.java:272-281 | the same, followed by setOffset |
| Correlation.BlockPMCC.SetOffset | mpicbg/src/main/java/mpicbg/ij/integral/BlockPMCC.java:296-381 | the overlap fields are those OverlapOf gives; product cells (1..fpXYWidth, 1..fpXYHeight) hold prefix sums of X·Y at the new offsets; every other cell, the border included, keeps its value; the other tables are unchanged |
| Correlation.BlockPMCC.BlockQueries | mpicbg/src/main/java/mpicbg/ij/integral/BlockPMCC.java:403-427 | the five queries around overlap pixel (x, y) return exactly the block statistics |
| Correlation.BlockPMCC.Paint | mpicbg/src/main/java/mpicbg/ij/integral/BlockPMCC.java:432 | writes the target value of overlap pixel (x, y) at y·width + x and advances the painting cursor by one pixel |
| Correlation.BlockPMCC.R | mpicbg/src/main/java/mpicbg/ij/integral/BlockPMCC.java:393-435 | every pixel y·width + x with x < fpXYWidth, y < fpXYHeight gets cov, varX, varY of its block; every other pixel is unchanged, so nothing is written before setOffset |
| Correlation.BlockPMCC.RWithRadius | mpicbg/src/main/java/mpicbg/ij/integral/BlockPMCC.java:438-441 | r with one radius in both directions |
| Correlation.BlockPMCC.RSignedSquare | mpicbg/src/main/java/mpicbg/ij/integral/BlockPMCC.java:452-497 | every overlap pixel gets the signed square of its block; every other pixel is unchanged |
| Correlation.BlockPMCC.RSignedSquareWithRadius | mpicbg/src/main/java/mpicbg/ij/integral/BlockPMCC.java:499-502 | rSignedSquare with one radius in both directions |
| Correlation.BlockPMCC.Fill | mpicbg/src/main/java/mpicbg/ij/integral/BlockPMCC.java:399-434 | the shared row-by-row loop: overlap pixels get their block's measure, the rest keep their values |
| Correlation.BlockPMCC.FillRow | mpicbg/src/main/java/mpicbg/ij/integral/BlockPMCC.java:412-433 | one overlap row is painted after the rows above it |
| Scaling.Round | mpicbg/src/main/java/mpicbg/ij/integral/Scale.java:80-83 | definition (no ensures): (int)(a + signum(a)·0.5), the cast truncating toward zero; RoundIsHalfAwayFromZero, RoundIsUnique, RoundOfInteger, RoundIsOdd, RoundIsMonotone and RoundShift state what it computes |
| Scaling.RoundIsHalfAwayFromZero | mpicbg/src/main/java/mpicbg/ij/integral/Scale.java:80-83 | round(a) is the integer within 1/2 of a, a tie going away from zero |
| Scaling.RoundIsUnique | mpicbg/src/main/java/mpicbg/ij/integral/Scale.java:80-83 | no other integer has that property |
| Scaling.RoundOfInteger | mpicbg/src/main/java/mpicbg/ij/integral/Scale.java:80-83 | round(k) = k |
| Scaling.RoundIsOdd | mpicbg/src/main/java/mpicbg/ij/integral/Scale.java:80-83 | round(−a) = −round(a) |
| Scaling.RoundIsMonotone | mpicbg/src/main/java/mpicbg/ij/integral/Scale.java:80-83 | a ≤ b implies round(a) ≤ round(b) |
| Scaling.RoundShift | mpicbg/src/main/java/mpicbg/ij/integral/Scale.java:80-83 | round(a − 1) = round(a) − 1 for a ≥ 1 |
| Scaling.PixelSize | mpicbg/src/main/java/mpicbg/ij/integral/Scale.java:94-95 | definition (no ensures): source pixels per target pixel, sourceSize / size, for size > 0 |
| Scaling.LowCorner | mpicbg/src/main/java/mpicbg/ij/integral/Scale.java:101 | definition (no ensures): min(last, max(−1, round(start) − 1)), the low corner of Scale.java:101 and 108 |
| Scaling.HighColumnCorner | mpicbg/src/main/java/mpicbg/ij/integral/Scale.java:109 | definition (no ensures): min(last, max(−1, round(start + size − 1))), the column rule |
| Scaling.HighRowCorner | mpicbg/src/main/java/mpicbg/ij/integral/Scale.java:102 | definition (no ensures): max(−1, min(last, round(start + size − 1))), the row rule, with the clamps in the other order; CornersInRange states that it agrees with the column rule |
| Scaling.CornersInRange | mpicbg/src/main/java/mpicbg/ij/integral/Scale.java:101-109 | every corner lies in [−1, last]; the row rule max(−1, min(..)) and the column rule min(.., max(−1, ..)) agree |
| Scaling.EdgeIsProduct | mpicbg/src/main/java/mpicbg/ij/integral/Scale.java:100-107 | the pixel edge is x·pixelSize |
| Scaling.Scaled | mpicbg/src/main/java/mpicbg/ij/integral/Scale.java:93 | the target has exactly width·height pixels |
| Scaling.ScaledPixel | mpicbg/src/main/java/mpicbg/ij/integral/Scale.java:99-111 | definition (no ensures): target pixel (x, y) is the mean of the source over the window whose corners the row and column rules give at the edges x·pixelWidth and y·pixelHeight; DownsampledPixelIsMean and SameSizeIsIdentity state what it is |
| Scaling.ScaledAt | mpicbg/src/main/java/mpicbg/ij/integral/Scale.java:99-111 | cell y·width + x of the target is pixel (x, y) |
| Scaling.ScaledSize | mpicbg/src/main/java/mpicbg/ij/integral/Scale.java:120-121 | definition (no ensures): round(size·factor), the target size scale(double) requests |
| Scaling.ScaledSizeOfOne | mpicbg/src/main/java/mpicbg/ij/integral/Scale.java:118-124 | scaling by 1 requests the source's own size |
| Scaling.UnitWindow | mpicbg/src/main/java/mpicbg/ij/integral/Scale.java:101-109 | pixel size 1 gives pixel p the window (p − 1, p) |
| Scaling.UnitPixelCorners | mpicbg/src/main/java/mpicbg/ij/integral/Scale.java:94-109 | at pixel size size/size the corners of pixel p are (p − 1, p) |
| Scaling.SameSizeIsIdentity | mpicbg/src/main/java/mpicbg/ij/integral/Scale.java:94-111 | scaling to the source's size gives each pixel a single-pixel window with factor 1, so its own value |
| Scaling.SameSizeScaledIsSource | mpicbg/src/main/java/mpicbg/ij/integral/Scale.java:85-116 | scaling to the source's size returns the source pixels |
| Scaling.DownsampledExtent | mpicbg/src/main/java/mpicbg/ij/integral/Scale.java:94-107 | target ≤ source: pixel size ≥ 1, edges within [0, source size], the last one at the end |
| Scaling.DownsampledWindow | mpicbg/src/main/java/mpicbg/ij/integral/Scale.java:101-109 | target ≤ source: no clamp changes a corner, and every window is nonempty |
| Scaling.WindowsAbut | mpicbg/src/main/java/mpicbg/ij/integral/Scale.java:107-109 | neighbouring downsampled windows meet |
| Scaling.DownsampledWindowsTile | mpicbg/src/main/java/mpicbg/ij/integral/Scale.java:97-111 | downsampled windows tile the source: from column 0, each ending where the next begins, the last at the last column |
| Scaling.DownsampledPixelIsMean | mpicbg/src/main/java/mpicbg/ij/integral/Scale.java:97-111 | a downsampled pixel is the mean of a nonempty window of the source |
| Scaling.UpsampledEmptyWindow | mpicbg/src/main/java/mpicbg/ij/integral/Scale.java:108-110 | upsampling a 1-pixel row to 2 pixels gives column 1 the empty window (0, 0) |
| Scaling.ClampedIndex | mpicbg/src/main/java/mpicbg/ij/integral/Scale.java:99-111 | inside the target, width·min(h, y) + min(w, x) is y·width + x |
| Scaling.Scale.constructor | mpicbg/src/main/java/mpicbg/ij/integral/Scale.java:56-78 | stores the image and records which integral image it builds; the table it holds is the image's table |
| Scaling.Scale.ScaleTo | mpicbg/src/main/java/mpicbg/ij/integral/Scale.java:85-116 | returns a fresh width·height target equal to Scaled(ip, width, height) |
| Scaling.Scale.ScaleRow | mpicbg/src/main/java/mpicbg/ij/integral/Scale.java:104-112 | one target row is written after the rows above it |
| Scaling.Scale.PixelValue | mpicbg/src/main/java/mpicbg/ij/integral/Scale.java:106-111 | the value stored at y·width + x is target cell y·width + x |
| Scaling.Scale.PixelQuery | mpicbg/src/main/java/mpicbg/ij/integral/Scale.java:99-111 | the corners, the factor 1 / bw / bh and the scaled query give the value of pixel (x, y) |
| Scaling.Scale.ScaleBy | mpicbg/src/main/java/mpicbg/ij/integral/Scale.java:118-124 | requests round(W·s) × round(H·s) and returns that scaled target |
| Scaling.Create | mpicbg/src/main/java/mpicbg/ij/integral/Scale.java:135-147 | a Scale for float, byte, short and colour images, with the matching integral image, and null for any other kind |
| Tilting.Tilted | mpicbg/src/main/java/mpicbg/ij/integral/Tilt.java:112-130 | the tilted image has exactly W·H pixels |
| Tilting.TiltedAt | mpicbg/src/main/java/mpicbg/ij/integral/Tilt.java:128 | cell y·W + x of the tilted image is the new value of pixel (x, y) |
| Tilting.FloorOfQuotient | mpicbg/src/main/java/mpicbg/ij/integral/Tilt.java:119-120 | the integer cast of a / s in reals is the integer quotient a div s |
| Tilting.Projection | mpicbg/src/main/java/mpicbg/ij/integral/Tilt.java:109-119 | definition (no ensures): dx·xt + dy·yt, the numerator of r with dx = x2 − x1, dy = y2 − y1, xt = x − x1, yt = y − y1 |
| Tilting.Span | mpicbg/src/main/java/mpicbg/ij/integral/Tilt.java:107 | definition (no ensures): the divisor s = (W + H)·2.0 |
| Tilting.Radius | mpicbg/src/main/java/mpicbg/ij/integral/Tilt.java:119-120 | definition (no ensures): the magnitude of p / s, truncated to an integer by the cast; RadiusIsQuotient, RadiusZero and RadiusIsMonotone state what it computes |
| Tilting.TiltRadius | mpicbg/src/main/java/mpicbg/ij/integral/Tilt.java:107-120 | definition (no ensures): ri at pixel (x, y), the Radius of the Projection over the Span |
| Tilting.TiltedPixel | mpicbg/src/main/java/mpicbg/ij/integral/Tilt.java:122-128 | definition (no ensures): the new pixel (x, y), the mean over the window of radius ri around it clamped to the image; TiltWindow bounds that window |
| Tilting.RadiusIsQuotient | mpicbg/src/main/java/mpicbg/ij/integral/Tilt.java:107-120 | ri = \|dx·(x−x1) + dy·(y−y1)\| div 2(W+H), a natural number |
| Tilting.RadiusZero | mpicbg/src/main/java/mpicbg/ij/integral/Tilt.java:114-120 | ri = 0 iff the projection's magnitude is below 2(W+H); in particular at (x1, y1) |
| Tilting.RadiusIsMonotone | mpicbg/src/main/java/mpicbg/ij/integral/Tilt.java:119-120 | equal projection magnitudes give equal radii, and a larger one never a smaller radius |
| Tilting.TiltWindow | mpicbg/src/main/java/mpicbg/ij/integral/Tilt.java:122-127 | −1 ≤ xMin < x ≤ xMax ≤ W−1 (likewise y), each side between 1 and 2ri + 1 |
| Tilting.CoincidentPointsKeepPixel | mpicbg/src/main/java/mpicbg/ij/integral/Tilt.java:109-128 | with (x1, y1) = (x2, y2) every pixel keeps its value |
| Tilting.CoincidentPointsKeepImage | mpicbg/src/main/java/mpicbg/ij/integral/Tilt.java:103-131 | with (x1, y1) = (x2, y2) the image is unchanged |
| Tilting.Tilt.constructor | mpicbg/src/main/java/mpicbg/ij/integral/Tilt.java:57-79 | records the image and builds its table once, from the pixels at that time |
| Tilting.Tilt.Render | mpicbg/src/main/java/mpicbg/ij/integral/Tilt.java:103-131 | afterwards the image is Tilted(source, x1, y1, x2, y2), a function of the pixels at construction only |
| Tilting.Tilt.RenderRow | mpicbg/src/main/java/mpicbg/ij/integral/Tilt.java:115-129 | one row is written after the rows above it |
| Tilting.Tilt.PixelValue | mpicbg/src/main/java/mpicbg/ij/integral/Tilt.java:117-128 | the value written at (x, y) is cell y·W + x of the tilted image |
| Tilting.Tilt.PixelQuery | mpicbg/src/main/java/mpicbg/ij/integral/Tilt.java:117-128 | radius, window, factor and scaled query give the new value of pixel (x, y) |
| Tilting.Create | mpicbg/src/main/java/mpicbg/ij/integral/Tilt.java:89-101 | a Tilt for float, byte, short and colour images, with the matching integral image, and null for any other kind |

## Left out

- Floating point is not modelled. Samples and sums are exact reals, so float/double rounding, the `(float)` casts, `Math.sqrt` and the final divisions of `r`/`rSignedSquare` are not captured. `PearsonOf` keeps the covariance and the two variances, and `SignedSquareOf` the numerator and denominator, so the NaN that zero variance gives is not modelled.
- Integer overflow is not modelled: ints and the `long`/`double` accumulators are unbounded integers and exact reals.
- The integral-image classes are not part of this model. Their tables are `TableOf`, their queries `Query`/`ScaledSum`, and their per-type rounding, clamping and RGB channel packing are not modelled. The `kind` field only records which class the source picks. The conversion of the queried value by `ip.set` and `target.set` for byte, short and colour images is not modelled.
- ImageJ processors are plain `Raster`s or `array<real>`s. `getTargetProcessor` is the field `fpR`. `createProcessor` is a fresh array.
- Integral.Factor: where a window is empty (only when upsampling — see `UpsampledEmptyWindow`), the source's `1.0f / 0` is infinity or NaN, but the model uses 0.
- Scaling.EdgeIsProduct: the edge `x * pixelWidth` is written as x additions of the pixel size. The value is the same over the reals.
- Scaling.Scale.PixelQuery: the row corners are computed per pixel, not once per row. They have the same values.
- Tilting.Radius: the source divides in double precision and truncates with an `(int)` cast. The model divides exactly, so rounding of huge projections is not captured.
- Correlation.BlockPMCC.SetOffset: requires a nonempty overlap. With an empty overlap the source still writes column 1 of later rows (BlockPMCC.java:359-363).
- Correlation.BlockPMCC.SizedWithOffset and Correlation.BlockPMCC.WithOffset: require a nonempty overlap, for the same reason.
- Correlation.BlockPMCC.R, Correlation.BlockPMCC.RSignedSquare, Correlation.BlockPMCC.RWithRadius, Correlation.BlockPMCC.RSignedSquareWithRadius, Correlation.BlockPMCC.Fill: require radii ≥ 0. With negative radii the source forms empty or out-of-range windows.
- Correlation.BlockPMCC.SetOffset: uses the product table's own stride (xyWidth + 1), not the raster width + 1 as written; see Findings.
- Scaling.Scale.ScaleBy, Scaling.Scale.ScaleTo: `ScaleBy` requires both scaled sizes to be ≥ 0, and `ScaleTo` takes its sizes as `nat`, so negative sizes are excluded by the type. For negative sizes the source's `scale(int, int)` does whatever ImageJ's `createProcessor` does, and that code is not part of this model.
- Correlation.BlockPMCC.Sized, Correlation.BlockPMCC.SizedWithOffset: require both rasters to be width × height. The source takes the sizes as separate arguments and does not check them (BlockPMCC.java:172-220); its documentation says the two rasters have equal dimensions. Mismatched sizes, where the source would read past a raster or leave part of it out of the tables, are not modelled.
- Commented-out display code in `setOffset` is left out.

## Findings

| source | as written | input that shows it | evidently intended | confidence | as-written member | corrected member |
|---|---|---|---|---|---|---|
| mpicbg/src/main/java/mpicbg/ij/integral/BlockPMCC.java:339 | the product table is written with row stride `fpR.getWidth() + 1`. For the constructor of any sizes that is Y's width + 1, but the table is only min(widthX, widthY) + 1 wide (BlockPMCC.java:251) | X 1×1, Y 2×1, offset (0, 0): the first store, `sum[++x + w]`, writes index 4 of a 4-cell table | stride min(widthX, widthY) + 1, the width the rectangle query reads the table with | not executed | Correlation.AsWrittenOverrun | Correlation.BlockPMCC.SetOffset |
