// main.cpp: the image buffer and the per-row work parallelForEach runs. Row j
// averages nSamples colours per pixel and writes the three channels of pixel
// (i, j) at j * xRes * 3 + i * 3 + c. The camera ray of each sample, and color()
// on it, are the parameter `radiance`; the gamma sqrt and the 8-bit conversion
// are the parameter `tone`.
module Images {
  import opened Optional
  import opened Vectors
  import Parallel

  /** The index of channel c of pixel (i, j) in a buffer xRes pixels wide. */
  function PixelIndex(i: int, j: int, c: int, xRes: int): int {
    j * xRes * 3 + i * 3 + c
  }

  predicate InImage(i: int, j: int, c: int, xRes: int, yRes: int) {
    0 <= i < xRes && 0 <= j < yRes && 0 <= c < 3
  }

  /** The pixel and channel an index of the buffer belongs to. */
  function PixelOf(idx: int, xRes: int): (p: (int, int, int))
    requires 0 <= idx && 1 <= xRes
  {
    ((idx / 3) % xRes, (idx / 3) / xRes, idx % 3)
  }

  /** q = j * x + i with i in [0, x) has quotient j and remainder i. */
  lemma DivModUnique(q: int, x: int, j: int, i: int)
    requires 1 <= x && 0 <= i < x && q == j * x + i
    ensures q / x == j && q % x == i
  {
    var d, m := q / x, q % x;
    assert q == d * x + m;
    assert (j - d) * x == m - i;
    if j - d >= 1 {
      MulAtLeast(j - d, x);
    } else if d - j >= 1 {
      MulAtLeast(d - j, x);
    }
  }

  lemma MulAtLeast(k: int, x: int)
    requires k >= 1 && x >= 1
    ensures k * x >= x
  {
    assert k * x == (k - 1) * x + x;
    MulNonNeg(k - 1, x);
  }

  lemma MulNonNeg(a: int, b: int)
    requires a >= 0 && b >= 0
    ensures a * b >= 0
  {
  }

  /** Row j occupies [j * xRes * 3, (j + 1) * xRes * 3): each pixel of the row writes
      its channels there and nowhere else. */
  lemma RowSpan(i: int, j: int, c: int, xRes: int)
    requires 0 <= i < xRes && 0 <= c < 3
    ensures j * xRes * 3 <= PixelIndex(i, j, c, xRes) < (j + 1) * xRes * 3
  {
    assert (j + 1) * xRes * 3 == j * xRes * 3 + xRes * 3;
  }

  /** Rows before row k lie below the start of row k. */
  lemma RowsBefore(j: int, k: int, xRes: int)
    requires j < k && xRes >= 0
    ensures (j + 1) * xRes * 3 <= k * xRes * 3
  {
    MulNonNeg(k - (j + 1), xRes * 3);
    assert k * xRes * 3 - (j + 1) * xRes * 3 == (k - (j + 1)) * (xRes * 3);
  }

  /** Every channel of every pixel has its own cell of the buffer: the index lies in
      [0, xRes * yRes * 3) and gives back the pixel and channel it came from. */
  lemma PixelIndexRoundTrip(i: int, j: int, c: int, xRes: int, yRes: int)
    requires InImage(i, j, c, xRes, yRes)
    ensures 0 <= PixelIndex(i, j, c, xRes) < xRes * yRes * 3
    ensures PixelOf(PixelIndex(i, j, c, xRes), xRes) == (i, j, c)
  {
    var q := j * xRes + i;
    assert PixelIndex(i, j, c, xRes) == q * 3 + c;
    DivModUnique(q * 3 + c, 3, q, c);
    DivModUnique(q, xRes, j, i);
    MulNonNeg(j, xRes);
    RowSpan(i, j, c, xRes);
    RowsBefore(j, yRes, xRes);
    assert yRes * xRes * 3 == xRes * yRes * 3;
  }

  /** Distinct channels of distinct pixels never share a cell, so rows written by
      different threads never write the same byte. */
  lemma PixelIndexInjective(i: int, j: int, c: int, i': int, j': int, c': int, xRes: int, yRes: int)
    requires InImage(i, j, c, xRes, yRes) && InImage(i', j', c', xRes, yRes)
    requires PixelIndex(i, j, c, xRes) == PixelIndex(i', j', c', xRes)
    ensures i == i' && j == j' && c == c'
  {
    PixelIndexRoundTrip(i, j, c, xRes, yRes);
    PixelIndexRoundTrip(i', j', c', xRes, yRes);
  }

  /** Every cell of the buffer is a channel of some pixel: together with the
      injectivity, the writes fill the whole buffer, each cell once. */
  lemma EveryCellIsAPixel(idx: int, xRes: int, yRes: int)
    requires 0 <= idx < xRes * yRes * 3 && 0 <= xRes && 0 <= yRes
    ensures xRes >= 1
    ensures var (i, j, c) := PixelOf(idx, xRes);
      InImage(i, j, c, xRes, yRes) && PixelIndex(i, j, c, xRes) == idx
  {
    var q := idx / 3;
    var i, j, c := q % xRes, q / xRes, idx % 3;
    QuotientBelow(q, xRes, yRes, idx);
    assert PixelIndex(i, j, c, xRes) == (j * xRes + i) * 3 + c;
  }

  /** A cell below xRes * yRes * 3 lies in one of the first yRes rows. */
  lemma QuotientBelow(q: int, xRes: int, yRes: int, idx: int)
    requires 1 <= xRes && 0 <= yRes && 0 <= idx < xRes * yRes * 3 && q == idx / 3
    ensures q / xRes < yRes
  {
    assert q < xRes * yRes;
    var j := q / xRes;
    if j >= yRes {
      MulNonNeg(j - yRes, xRes);
    }
  }

  /** col summed over the first n samples of pixel (i, j). */
  function SampleSum(radiance: (int, int, int) -> Vector3, i: int, j: int, n: int): Vector3
    decreases n
  {
    if n <= 0 then Zero else Add(SampleSum(radiance, i, j, n - 1), radiance(i, j, n - 1))
  }

  /** col /= float(nSamples): the mean of the samples. nSamples is never checked; for
      0 the quotient 0 / 0 is NaN, which is None here, and a negative count leaves
      the sum of no samples, black. */
  function Average(radiance: (int, int, int) -> Vector3, i: int, j: int, nSamples: int): (col: Option<Vector3>)
    ensures nSamples == 0 <==> col.None?
    ensures nSamples < 0 ==> col == Some(Zero)
  {
    if nSamples == 0 then None
    else Some(Div(SampleSum(radiance, i, j, nSamples), nSamples as real))
  }

  /** Samples that all bring the same colour average to that colour. */
  lemma AverageOfConstant(radiance: (int, int, int) -> Vector3, i: int, j: int, nSamples: int, v: Vector3)
    requires nSamples >= 1
    requires forall s :: 0 <= s < nSamples ==> radiance(i, j, s) == v
    ensures Average(radiance, i, j, nSamples) == Some(v)
  {
    SumOfConstant(radiance, i, j, nSamples, v);
    ScaleDiv(nSamples as real, v);
  }

  lemma {:induction false} SumOfConstant(radiance: (int, int, int) -> Vector3, i: int, j: int, n: int, v: Vector3)
    requires n >= 0
    requires forall s :: 0 <= s < n ==> radiance(i, j, s) == v
    ensures SampleSum(radiance, i, j, n) == Scale(n as real, v)
    decreases n
  {
    if n > 0 {
      SumOfConstant(radiance, i, j, n - 1, v);
      assert SampleSum(radiance, i, j, n) == Add(Scale((n - 1) as real, v), v);
      ScaleSucc((n - 1) as real, v);
    }
  }

  lemma ScaleSucc(k: real, v: Vector3)
    ensures Add(Scale(k, v), v) == Scale(k + 1.0, v)
  {
    assert k * v.x + v.x == (k + 1.0) * v.x;
    assert k * v.y + v.y == (k + 1.0) * v.y;
    assert k * v.z + v.z == (k + 1.0) * v.z;
  }

  lemma ScaleDiv(k: real, v: Vector3)
    requires k != 0.0
    ensures Div(Scale(k, v), k) == v
  {
    assert k * v.x / k == v.x;
    assert k * v.y / k == v.y;
    assert k * v.z / k == v.z;
  }

  /** The loop over the samples of one pixel. */
  method SumSamples(radiance: (int, int, int) -> Vector3, i: int, j: int, nSamples: int) returns (col: Vector3)
    ensures col == SampleSum(radiance, i, j, nSamples)
  {
    col := Zero;
    var s := 0;
    while s < nSamples
      invariant 0 <= s && (s <= nSamples || s == 0)
      invariant col == SampleSum(radiance, i, j, s)
    {
      col := Add(col, radiance(i, j, s));
      s := s + 1;
    }
  }

  /** The byte written for channel c of pixel (i, j). */
  function Channel(radiance: (int, int, int) -> Vector3, tone: real -> int, i: int, j: int, c: int, nSamples: int): int
    requires nSamples != 0 && 0 <= c < 3
  {
    tone(At(Average(radiance, i, j, nSamples).value, c))
  }

  /** What cell idx of the finished image holds: the channel of the pixel it
      belongs to. */
  function Cell(radiance: (int, int, int) -> Vector3, tone: real -> int, idx: int, xRes: int, nSamples: int): int
    requires 0 <= idx && 1 <= xRes && nSamples != 0
  {
    var (i, j, c) := PixelOf(idx, xRes);
    Channel(radiance, tone, i, j, c, nSamples)
  }

  /** The cells of row j, [j * xRes * 3, (j + 1) * xRes * 3). */
  predicate InRow(idx: int, j: int, xRes: int) {
    j * (xRes * 3) <= idx < j * (xRes * 3) + xRes * 3
  }

  /** The body of the lambda for row j: every cell of the row gets the channel of
      its pixel, and no cell outside the row changes. */
  method WriteRow(image: array<int>, j: int, xRes: int, yRes: int, nSamples: int,
                  radiance: (int, int, int) -> Vector3, tone: real -> int)
    requires 0 <= xRes && 0 <= j < yRes && image.Length == xRes * yRes * 3 && nSamples != 0
    modifies image
    ensures forall idx :: 0 <= idx < image.Length && InRow(idx, j, xRes) ==>
      1 <= xRes && image[idx] == Cell(radiance, tone, idx, xRes, nSamples)
    ensures forall idx :: 0 <= idx < image.Length && !InRow(idx, j, xRes) ==>
      image[idx] == old(image[idx])
  {
    var rowStart := j * xRes * 3;
    RowInImage(j, xRes, yRes);
    for i := 0 to xRes
      invariant forall idx :: 0 <= idx < image.Length && rowStart <= idx < rowStart + i * 3 ==>
        image[idx] == Cell(radiance, tone, idx, xRes, nSamples)
      invariant forall idx :: 0 <= idx < image.Length && !(rowStart <= idx < rowStart + i * 3) ==>
        image[idx] == old(image[idx])
    {
      WritePixel(image, rowStart + i * 3, i, j, xRes, yRes, nSamples, radiance, tone);
    }
  }

  /** One pass of the loop over i: the samples of pixel (i, j) are summed and divided
      by nSamples, and its three channels written at `base` on. */
  method WritePixel(image: array<int>, base: int, i: int, j: int, xRes: int, yRes: int, nSamples: int,
                    radiance: (int, int, int) -> Vector3, tone: real -> int)
    requires 0 <= i < xRes && 0 <= j < yRes && nSamples != 0
    requires base == j * xRes * 3 + i * 3 && 0 <= base && base + 3 <= image.Length
    modifies image
    ensures forall idx :: base <= idx < base + 3 ==> image[idx] == Cell(radiance, tone, idx, xRes, nSamples)
    ensures forall idx :: 0 <= idx < image.Length && !(base <= idx < base + 3) ==> image[idx] == old(image[idx])
  {
    var col := SumSamples(radiance, i, j, nSamples);
    col := Div(col, nSamples as real);
    image[base] := tone(col.x);
    image[base + 1] := tone(col.y);
    image[base + 2] := tone(col.z);
    PixelCell(base, i, j, 0, xRes, yRes);
    PixelCell(base, i, j, 1, xRes, yRes);
    PixelCell(base, i, j, 2, xRes, yRes);
  }

  /** Row j of the first yRes rows lies inside the buffer. */
  lemma RowInImage(j: int, xRes: int, yRes: int)
    requires 0 <= xRes && 0 <= j < yRes
    ensures j * xRes * 3 == j * (xRes * 3) >= 0
    ensures j * (xRes * 3) + xRes * 3 <= xRes * yRes * 3
  {
    RowsBefore(j, yRes, xRes);
    MulNonNeg(j, xRes * 3);
    assert yRes * xRes * 3 == xRes * yRes * 3;
  }

  /** Channel c of pixel (i, j), written at base + c, is read back as that pixel's
      channel. */
  lemma PixelCell(base: int, i: int, j: int, c: int, xRes: int, yRes: int)
    requires 0 <= i < xRes && 0 <= j < yRes && 0 <= c < 3 && base == j * xRes * 3 + i * 3
    ensures 0 <= base + c && PixelOf(base + c, xRes) == (i, j, c)
  {
    PixelIndexRoundTrip(i, j, c, xRes, yRes);
  }

  /** The image as main builds it: a buffer of xRes * yRes * 3 cells, and the rows
      parallelForEach(0, yRes) hands out, each written by its lambda. Every cell
      ends up holding the channel of its pixel. */
  method Render(xRes: int, yRes: int, nSamples: int, hardware: nat,
                radiance: (int, int, int) -> Vector3, tone: real -> int) returns (image: array<int>)
    requires 0 <= xRes && 0 <= yRes && nSamples != 0
    ensures image.Length == xRes * yRes * 3
    ensures forall idx :: 0 <= idx < image.Length ==>
      1 <= xRes && image[idx] == Cell(radiance, tone, idx, xRes, nSamples)
  {
    MulNonNeg(xRes, yRes);
    image := new int[xRes * yRes * 3];
    var rows := Parallel.ParallelForEach(0, yRes, hardware);
    ghost var rowLen := xRes * 3;
    for k := 0 to |rows|
      invariant forall idx :: 0 <= idx < image.Length && idx < k * rowLen ==>
        1 <= xRes && image[idx] == Cell(radiance, tone, idx, xRes, nSamples)
    {
      WriteRow(image, rows[k], xRes, yRes, nSamples, radiance, tone);
      assert (k + 1) * rowLen == k * rowLen + rowLen;
    }
    assert yRes * rowLen == image.Length;
  }
}
