/** Images and the box filter that scales them: scaleBox of the icon generator and of the tray. */
module IconImage {
  import opened Results

  datatype Pixel = Pixel(r: Byte, g: Byte, b: Byte, a: Byte)

  /** An image by rows, top to bottom, with its own width in case it has no rows. */
  datatype Image = Image(width: nat, rows: seq<seq<Pixel>>) {
    predicate Valid() {
      forall y :: 0 <= y < |rows| ==> |rows[y]| == width
    }

    function Height(): nat {
      |rows|
    }
  }

  datatype Channel = R | G | B | A

  function Get(p: Pixel, c: Channel): Byte {
    match c
    case R => p.r
    case G => p.g
    case B => p.b
    case A => p.a
  }

  /** The channel of one pixel; nothing outside the image. */
  function At(src: Image, c: Channel, x: int, y: int): Byte {
    if 0 <= y < |src.rows| && 0 <= x < |src.rows[y]| then Get(src.rows[y][x], c) else 0
  }

  /** The sum of n pixels of row y from column x on. */
  function RowSum(src: Image, c: Channel, x: nat, y: nat, n: nat): nat {
    if n == 0 then 0 else RowSum(src, c, x, y, n - 1) + At(src, c, x + n - 1, y)
  }

  /** The sum of a block n wide and m high with its corner at (x, y). */
  function BlockSum(src: Image, c: Channel, x: nat, y: nat, n: nat, m: nat): nat {
    if m == 0 then 0 else BlockSum(src, c, x, y, n, m - 1) + RowSum(src, c, x, y + m - 1, n)
  }

  // ----- Mean values -----

  predicate BlockWithin(src: Image, c: Channel, x: nat, y: nat, n: nat, m: nat, lo: int, hi: int) {
    forall i, j :: x <= i < x + n && y <= j < y + m ==> lo <= At(src, c, i, j) <= hi
  }

  lemma Distribute(n: int, v: int)
    ensures n * v == (n - 1) * v + v
  {
  }

  lemma {:induction false} RowSumBounds(src: Image, c: Channel, x: nat, y: nat, n: nat, lo: int, hi: int)
    requires forall i :: x <= i < x + n ==> lo <= At(src, c, i, y) <= hi
    ensures n * lo <= RowSum(src, c, x, y, n) <= n * hi
  {
    hide At;
    if n > 0 {
      RowSumBounds(src, c, x, y, n - 1, lo, hi);
      Distribute(n, lo);
      Distribute(n, hi);
    }
  }

  lemma {:induction false} BlockSumBounds(src: Image, c: Channel, x: nat, y: nat, n: nat, m: nat, lo: int, hi: int)
    requires BlockWithin(src, c, x, y, n, m, lo, hi)
    ensures m * (n * lo) <= BlockSum(src, c, x, y, n, m) <= m * (n * hi)
  {
    hide At, RowSum;
    if m > 0 {
      BlockSumBounds(src, c, x, y, n, m - 1, lo, hi);
      RowSumBounds(src, c, x, y + m - 1, n, lo, hi);
      Distribute(m, n * lo);
      Distribute(m, n * hi);
    }
  }

  lemma ProductsAscend(a: int, b: int, c: int)
    requires a >= 0 && b <= c
    ensures a * b <= a * c
  {
    assert a * c - a * b == a * (c - b);
  }

  lemma FactorsAscend(a: int, b: int, c: int)
    requires a > 0 && a * b < a * (c + 1)
    ensures b <= c
  {
    if b > c {
      ProductsAscend(a, c + 1, b);
      assert false;
    }
  }

  lemma QuotientBounds(sum: int, area: int, lo: int, hi: int)
    requires area > 0 && area * lo <= sum <= area * hi
    ensures lo <= sum / area <= hi
  {
    var q := sum / area;
    assert area * q <= sum < area * (q + 1);
    FactorsAscend(area, lo, q);
    assert area * (hi + 1) == area * hi + area;
    FactorsAscend(area, q, hi);
  }

  lemma Products(n: int, m: int, v: int)
    ensures m * (n * v) == (n * m) * v
  {
  }

  /** The floored mean of a block. */
  function Mean(src: Image, c: Channel, x: nat, y: nat, n: nat, m: nat): int
    requires n * m > 0
  {
    BlockSum(src, c, x, y, n, m) / (n * m)
  }

  /** A mean lies between any bounds of its block, and so between its minimum and its maximum. */
  lemma MeanWithinBlock(src: Image, c: Channel, x: nat, y: nat, n: nat, m: nat, lo: int, hi: int)
    requires n * m > 0 && BlockWithin(src, c, x, y, n, m, lo, hi)
    ensures lo <= Mean(src, c, x, y, n, m) <= hi
  {
    BlockSumBounds(src, c, x, y, n, m, lo, hi);
    Products(n, m, lo);
    Products(n, m, hi);
    hide BlockSum, BlockWithin;
    QuotientBounds(BlockSum(src, c, x, y, n, m), n * m, lo, hi);
  }

  lemma MeanIsByte(src: Image, c: Channel, x: nat, y: nat, n: nat, m: nat)
    requires n * m > 0
    ensures 0 <= Mean(src, c, x, y, n, m) < 256
  {
    hide At, Mean;
    MeanWithinBlock(src, c, x, y, n, m, 0, 255);
  }

  // ----- The filter -----

  function MeanPixel(src: Image, x: nat, y: nat, n: nat, m: nat): Pixel
    requires n * m > 0
  {
    MeanIsByte(src, R, x, y, n, m);
    MeanIsByte(src, G, x, y, n, m);
    MeanIsByte(src, B, x, y, n, m);
    MeanIsByte(src, A, x, y, n, m);
    Pixel(Mean(src, R, x, y, n, m), Mean(src, G, x, y, n, m), Mean(src, B, x, y, n, m), Mean(src, A, x, y, n, m))
  }

  /** The side of a block when a side is cut into w of them; what is left over is not read. */
  function BlockSide(side: nat, w: nat): nat
    requires w > 0
  {
    side / w
  }

  /** Where block i starts. */
  function Corner(side: nat, w: nat, i: nat): nat
    requires w > 0
  {
    i * BlockSide(side, w)
  }

  lemma BlockSideIsPositive(side: int, w: int)
    requires 1 <= w <= side
    ensures BlockSide(side, w) >= 1 && w * BlockSide(side, w) <= side
  {
    assert w * 1 < w * (side / w + 1);
    FactorsAscend(w, 1, side / w);
  }

  lemma BlockArea(src: Image, w: nat)
    requires 1 <= w <= src.width && w <= src.Height()
    ensures BlockSide(src.width, w) * BlockSide(src.Height(), w) > 0
  {
    BlockSideIsPositive(src.width, w);
    BlockSideIsPositive(src.Height(), w);
    ProductsAscend(BlockSide(src.width, w), 1, BlockSide(src.Height(), w));
  }

  /** A block that the filter reads lies in the image, and the next one starts where it ends. */
  lemma BlockInBounds(side: nat, w: nat, i: nat)
    requires 1 <= w <= side && i < w
    ensures Corner(side, w, i) + BlockSide(side, w) == Corner(side, w, i + 1) <= side
  {
    BlockSideIsPositive(side, w);
    ProductsAscend(BlockSide(side, w), i + 1, w);
    Distribute(i + 1, BlockSide(side, w));
  }

  /** Pixel (x, y) of the image scaled to w by w: the mean of its own block. */
  function ScaledPixel(src: Image, w: nat, x: nat, y: nat): Pixel
    requires 1 <= w <= src.width && w <= src.Height()
  {
    BlockArea(src, w);
    MeanPixel(src, Corner(src.width, w, x), Corner(src.Height(), w, y),
              BlockSide(src.width, w), BlockSide(src.Height(), w))
  }

  function Scaled(src: Image, w: nat): (r: Image)
    requires 1 <= w <= src.width && w <= src.Height()
    ensures r.Valid() && r.width == w == r.Height()
  {
    Image(w, seq(w, y requires 0 <= y < w => seq(w, x requires 0 <= x < w => ScaledPixel(src, w, x, y))))
  }

  /** The two inner loops: one block, all four channels at once. */
  method SumBlock(src: Image, x: nat, y: nat, n: nat, m: nat) returns (r: nat, g: nat, b: nat, a: nat)
    requires src.Valid() && x + n <= src.width && y + m <= src.Height()
    ensures r == BlockSum(src, R, x, y, n, m) && g == BlockSum(src, G, x, y, n, m)
    ensures b == BlockSum(src, B, x, y, n, m) && a == BlockSum(src, A, x, y, n, m)
  {
    r, g, b, a := 0, 0, 0, 0;
    for sy := 0 to m
      invariant r == BlockSum(src, R, x, y, n, sy) && g == BlockSum(src, G, x, y, n, sy)
      invariant b == BlockSum(src, B, x, y, n, sy) && a == BlockSum(src, A, x, y, n, sy)
    {
      ghost var (r0, g0, b0, a0) := (r, g, b, a);
      for sx := 0 to n
        invariant r == r0 + RowSum(src, R, x, y + sy, sx) && g == g0 + RowSum(src, G, x, y + sy, sx)
        invariant b == b0 + RowSum(src, B, x, y + sy, sx) && a == a0 + RowSum(src, A, x, y + sy, sx)
      {
        var p := src.rows[y + sy][x + sx];
        r, g, b, a := r + p.r, g + p.g, b + p.b, a + p.a;
      }
    }
  }

  method AveragePixel(src: Image, x: nat, y: nat, n: nat, m: nat) returns (p: Pixel)
    requires src.Valid() && n * m > 0 && x + n <= src.width && y + m <= src.Height()
    ensures p == MeanPixel(src, x, y, n, m)
  {
    var r, g, b, a := SumBlock(src, x, y, n, m);
    MeanIsByte(src, R, x, y, n, m);
    MeanIsByte(src, G, x, y, n, m);
    MeanIsByte(src, B, x, y, n, m);
    MeanIsByte(src, A, x, y, n, m);
    hide BlockSum;
    p := Pixel(r / (n * m), g / (n * m), b / (n * m), a / (n * m));
  }

  /** Every pixel it reads is in the image, whatever the sides. */
  method PixelAt(src: Image, w: nat, x: nat, y: nat) returns (p: Pixel)
    requires src.Valid() && 1 <= w <= src.width && w <= src.Height() && x < w && y < w
    ensures p == ScaledPixel(src, w, x, y)
  {
    BlockArea(src, w);
    BlockInBounds(src.width, w, x);
    BlockInBounds(src.Height(), w, y);
    hide MeanPixel, BlockSide, Corner;
    p := AveragePixel(src, Corner(src.width, w, x), Corner(src.Height(), w, y),
                      BlockSide(src.width, w), BlockSide(src.Height(), w));
  }

  /** The image held by a grid of pixels, row by row. */
  function Picture(grid: array2<Pixel>): Image
    reads grid
  {
    Image(grid.Length1, seq(grid.Length0, y requires 0 <= y < grid.Length0 reads grid =>
      seq(grid.Length1, x requires 0 <= x < grid.Length1 reads grid => grid[y, x])))
  }

  method ScaleBox(src: Image, w: nat) returns (dst: array2<Pixel>)
    requires src.Valid() && 1 <= w <= src.width && w <= src.Height()
    ensures fresh(dst) && Picture(dst) == Scaled(src, w)
  {
    hide ScaledPixel;
    dst := new Pixel[w, w]((y, x) => Pixel(0, 0, 0, 0));
    for y := 0 to w
      invariant forall j, i :: 0 <= j < y && 0 <= i < w ==> dst[j, i] == ScaledPixel(src, w, i, j)
    {
      for x := 0 to w
        invariant forall j, i :: 0 <= j < y && 0 <= i < w ==> dst[j, i] == ScaledPixel(src, w, i, j)
        invariant forall i :: 0 <= i < x ==> dst[y, i] == ScaledPixel(src, w, i, y)
      {
        var p := PixelAt(src, w, x, y);
        dst[y, x] := p;
      }
    }
    forall y | 0 <= y < w
      ensures Picture(dst).rows[y] == Scaled(src, w).rows[y]
    {
    }
  }

  // ----- Conservation -----

  lemma {:induction false} RowSumSplits(src: Image, c: Channel, x: nat, y: nat, n: nat, k: nat)
    ensures RowSum(src, c, x, y, n + k) == RowSum(src, c, x, y, n) + RowSum(src, c, x + n, y, k)
  {
    hide At;
    if k > 0 {
      RowSumSplits(src, c, x, y, n, k - 1);
      assert x + n + k - 1 == x + (n + k) - 1;
    }
  }

  lemma {:induction false} BlockSplitsAcross(src: Image, c: Channel, x: nat, y: nat, n: nat, k: nat, m: nat)
    ensures BlockSum(src, c, x, y, n + k, m) == BlockSum(src, c, x, y, n, m) + BlockSum(src, c, x + n, y, k, m)
  {
    hide RowSum;
    if m > 0 {
      BlockSplitsAcross(src, c, x, y, n, k, m - 1);
      RowSumSplits(src, c, x, y + m - 1, n, k);
    }
  }

  lemma {:induction false} BlockSplitsDown(src: Image, c: Channel, x: nat, y: nat, n: nat, m: nat, k: nat)
    ensures BlockSum(src, c, x, y, n, m + k) == BlockSum(src, c, x, y, n, m) + BlockSum(src, c, x, y + m, n, k)
  {
    hide RowSum;
    if k > 0 {
      BlockSplitsDown(src, c, x, y, n, m, k - 1);
      assert y + m + k - 1 == y + (m + k) - 1;
    }
  }

  /** Pixel (i, j) of the result is the mean of block (i, j), as far as w columns and h rows. */
  predicate Averages(src: Image, dst: Image, c: Channel, fx: nat, fy: nat, w: nat, h: nat)
    requires fx * fy > 0
  {
    forall i, j :: 0 <= i < w && 0 <= j < h ==> At(dst, c, i, j) == Mean(src, c, i * fx, j * fy, fx, fy)
  }

  /** An output times the area of its block, and the remainder the division dropped. */
  function Restored(src: Image, dst: Image, c: Channel, i: nat, j: nat, fx: nat, fy: nat): int
    requires fx * fy > 0
  {
    At(dst, c, i, j) * (fx * fy) + BlockSum(src, c, i * fx, j * fy, fx, fy) % (fx * fy)
  }

  function RestoredRow(src: Image, dst: Image, c: Channel, j: nat, fx: nat, fy: nat, w: nat): int
    requires fx * fy > 0
  {
    if w == 0 then 0 else RestoredRow(src, dst, c, j, fx, fy, w - 1) + Restored(src, dst, c, w - 1, j, fx, fy)
  }

  function RestoredRows(src: Image, dst: Image, c: Channel, fx: nat, fy: nat, w: nat, h: nat): int
    requires fx * fy > 0
  {
    if h == 0 then 0
    else RestoredRows(src, dst, c, fx, fy, w, h - 1) + RestoredRow(src, dst, c, h - 1, fx, fy, w)
  }

  lemma QuotientAndRemainder(a: int, n: int)
    requires n > 0
    ensures a / n * n + a % n == a
  {
  }

  lemma {:induction false} RestoredRowIsSum(src: Image, dst: Image, c: Channel, j: nat, fx: nat, fy: nat,
                                            w: nat, h: nat)
    requires fx * fy > 0 && j < h && Averages(src, dst, c, fx, fy, w, h)
    ensures RestoredRow(src, dst, c, j, fx, fy, w) == BlockSum(src, c, 0, j * fy, w * fx, fy)
  {
    hide BlockSum, At;
    if w == 0 {
      EmptyBlock(src, c, 0, j * fy, fy);
    } else {
      RestoredRowIsSum(src, dst, c, j, fx, fy, w - 1, h);
      assert At(dst, c, w - 1, j) == Mean(src, c, (w - 1) * fx, j * fy, fx, fy);
      QuotientAndRemainder(BlockSum(src, c, (w - 1) * fx, j * fy, fx, fy), fx * fy);
      BlockSplitsAcross(src, c, 0, j * fy, (w - 1) * fx, fx, fy);
      Distribute(w, fx);
    }
  }

  lemma {:induction false} EmptyBlock(src: Image, c: Channel, x: nat, y: nat, m: nat)
    ensures BlockSum(src, c, x, y, 0, m) == 0
  {
    if m > 0 {
      EmptyBlock(src, c, x, y, m - 1);
    }
  }

  lemma {:induction false} RestoredRowsAreSum(src: Image, dst: Image, c: Channel, fx: nat, fy: nat, w: nat, h: nat)
    requires fx * fy > 0 && Averages(src, dst, c, fx, fy, w, h)
    ensures RestoredRows(src, dst, c, fx, fy, w, h) == BlockSum(src, c, 0, 0, w * fx, h * fy)
  {
    hide At, Mean, RestoredRow;
    if h > 0 {
      RestoredRowIsSum(src, dst, c, h - 1, fx, fy, w, h);
      RestoredRowsAreSum(src, dst, c, fx, fy, w, h - 1);
      hide BlockSum, Averages;
      BlockSplitsDown(src, c, 0, 0, w * fx, (h - 1) * fy, fy);
      Distribute(h, fy);
    }
  }

  /** Each output channel is the floored mean of that channel over its own block. */
  lemma ScaledIsMean(src: Image, w: nat, c: Channel, x: nat, y: nat)
    requires 1 <= w <= src.width && w <= src.Height() && x < w && y < w
    ensures BlockSide(src.width, w) * BlockSide(src.Height(), w) > 0
    ensures At(Scaled(src, w), c, x, y)
         == Mean(src, c, Corner(src.width, w, x), Corner(src.Height(), w, y),
                 BlockSide(src.width, w), BlockSide(src.Height(), w))
  {
    BlockArea(src, w);
    hide Mean, Corner, BlockSide;
    assert At(Scaled(src, w), c, x, y) == Get(ScaledPixel(src, w, x, y), c);
  }

  /** No output leaves the range of the pixels it averages. */
  lemma ScaledWithinBlock(src: Image, w: nat, c: Channel, x: nat, y: nat, lo: int, hi: int)
    requires 1 <= w <= src.width && w <= src.Height() && x < w && y < w
    requires forall i, j ::
      Corner(src.width, w, x) <= i < Corner(src.width, w, x + 1)
      && Corner(src.Height(), w, y) <= j < Corner(src.Height(), w, y + 1)
      ==> lo <= At(src, c, i, j) <= hi
    ensures lo <= At(Scaled(src, w), c, x, y) <= hi
  {
    ScaledIsMean(src, w, c, x, y);
    BlockInBounds(src.width, w, x);
    BlockInBounds(src.Height(), w, y);
    hide Corner, BlockSide, At, Mean, Scaled;
    MeanWithinBlock(src, c, Corner(src.width, w, x), Corner(src.Height(), w, y),
                    BlockSide(src.width, w), BlockSide(src.Height(), w), lo, hi);
  }

  lemma ScaledAverages(src: Image, w: nat, c: Channel)
    requires 1 <= w <= src.width && w <= src.Height()
    ensures BlockSide(src.width, w) * BlockSide(src.Height(), w) > 0
    ensures Averages(src, Scaled(src, w), c, BlockSide(src.width, w), BlockSide(src.Height(), w), w, w)
  {
    BlockArea(src, w);
    forall i, j | 0 <= i < w && 0 <= j < w
      ensures At(Scaled(src, w), c, i, j)
           == Mean(src, c, i * BlockSide(src.width, w), j * BlockSide(src.Height(), w),
                   BlockSide(src.width, w), BlockSide(src.Height(), w))
    {
      ScaledIsMean(src, w, c, i, j);
      hide Mean, BlockSide, At, Scaled;
    }
    hide Mean, BlockSide, At, Scaled;
  }

  /**
   The outputs times the block area, with the remainders, add up to the sum of
   the source over the part that the blocks cover.
   */
  lemma ScalingConserves(src: Image, c: Channel, w: nat)
    requires 1 <= w <= src.width && w <= src.Height()
    ensures BlockSide(src.width, w) * BlockSide(src.Height(), w) > 0
    ensures RestoredRows(src, Scaled(src, w), c, BlockSide(src.width, w), BlockSide(src.Height(), w), w, w)
         == BlockSum(src, c, 0, 0, Corner(src.width, w, w), Corner(src.Height(), w, w))
  {
    ScaledAverages(src, w, c);
    hide BlockSum, RestoredRows, BlockSide, Averages, Scaled;
    RestoredRowsAreSum(src, Scaled(src, w), c, BlockSide(src.width, w), BlockSide(src.Height(), w), w, w);
  }

  /** The blocks cover a side exactly when w divides it; 256 is no multiple of 24 or 48. */
  lemma BlocksCover(side: nat, w: nat)
    requires w > 0
    ensures Corner(side, w, w) == side <==> side % w == 0
    ensures side == 256 && w == 24 ==> Corner(side, w, w) == 240
    ensures side == 256 && w == 48 ==> Corner(side, w, w) == 240
  {
    assert side == w * (side / w) + side % w;
  }
}
