/**
 * Two helpers of the texture loader: the in-place vertical flip of a
 * row-major image buffer that the cube-map loader applies to every face, and
 * the test that warns when a texture's width or height is not a power of two.
 * An `unsigned char` is a `bv8`.
 */
module Textures {
  import opened BitOps

  /** The flat index of byte c of row r in an image whose rows are rowSize bytes long. */
  function Offset(r: int, c: int, rowSize: int): int
  {
    r * rowSize + c
  }

  /** a <= b, scaled by a non-negative factor. */
  lemma MulMonotone(a: int, b: int, m: int)
    requires a <= b && 0 <= m
    ensures a * m <= b * m
  {
    assert b * m - a * m == (b - a) * m;
  }

  /** Byte c of row r lies in row s exactly when r is s. */
  lemma RowRange(r: int, c: int, s: int, rowSize: int)
    requires 0 <= c < rowSize
    ensures Offset(s, 0, rowSize) <= Offset(r, c, rowSize) < Offset(s, 0, rowSize) + rowSize <==> r == s
  {
    if r < s {
      MulMonotone(r + 1, s, rowSize);
    } else if s < r {
      MulMonotone(s + 1, r, rowSize);
    }
  }

  /** Every index of the first height rows is byte k % rowSize of row k / rowSize. */
  lemma RowColumn(k: int, rowSize: nat, height: nat)
    requires 0 <= k < rowSize * height
    ensures 0 < rowSize
    ensures 0 <= k / rowSize < height && 0 <= k % rowSize < rowSize
    ensures k == Offset(k / rowSize, k % rowSize, rowSize)
  {
    if k / rowSize >= height {
      MulMonotone(height, k / rowSize, rowSize);
    }
  }

  /** The indices of the first height rows are below rowSize * height. */
  lemma OffsetInImage(r: int, c: int, rowSize: nat, height: nat)
    requires 0 <= r < height && 0 <= c < rowSize
    ensures 0 <= Offset(r, c, rowSize) < rowSize * height
  {
    MulMonotone(0, r, rowSize);
    MulMonotone(r + 1, height, rowSize);
  }

  /**
   * Where byte k of the flipped image comes from: inside the first height
   * rows, the same byte of the mirrored row; past them, k itself.
   */
  function FlipSource(k: int, rowSize: nat, height: nat): (j: int)
    requires 0 <= k
    ensures k < rowSize * height ==> 0 <= j < rowSize * height
    ensures rowSize * height <= k ==> j == k
  {
    if k < rowSize * height then
      RowColumn(k, rowSize, height);
      OffsetInImage(height - 1 - k / rowSize, k % rowSize, rowSize, height);
      Offset(height - 1 - k / rowSize, k % rowSize, rowSize)
    else k
  }

  /** The image with its first height rows of rowSize bytes in reverse order. */
  function Flipped(image: seq<bv8>, rowSize: nat, height: nat): (flipped: seq<bv8>)
    requires rowSize * height <= |image|
    ensures |flipped| == |image|
  {
    seq(|image|, k requires 0 <= k < |image| => image[FlipSource(k, rowSize, height)])
  }

  /** Byte c of row r of the flipped image is byte c of row height - 1 - r of the original. */
  lemma FlippedAt(image: seq<bv8>, rowSize: nat, height: nat, r: int, c: int)
    requires rowSize * height <= |image|
    requires 0 <= r < height && 0 <= c < rowSize
    ensures 0 <= Offset(r, c, rowSize) < |image| && 0 <= Offset(height - 1 - r, c, rowSize) < |image|
    ensures Flipped(image, rowSize, height)[Offset(r, c, rowSize)] == image[Offset(height - 1 - r, c, rowSize)]
  {
    OffsetInImage(r, c, rowSize, height);
    OffsetInImage(height - 1 - r, c, rowSize, height);
    var k := Offset(r, c, rowSize);
    RowColumn(k, rowSize, height);
    RowRange(r, c, k / rowSize, rowSize);
  }

  /** Bytes past the first height rows are not moved. */
  lemma FlippedKeepsTail(image: seq<bv8>, rowSize: nat, height: nat, k: int)
    requires rowSize * height <= k < |image|
    ensures Flipped(image, rowSize, height)[k] == image[k]
  {
  }

  /** Flipping twice gives the original image back. */
  lemma FlippedTwice(image: seq<bv8>, rowSize: nat, height: nat)
    requires rowSize * height <= |image|
    ensures Flipped(Flipped(image, rowSize, height), rowSize, height) == image
  {
    var once := Flipped(image, rowSize, height);
    var twice := Flipped(once, rowSize, height);
    forall k | 0 <= k < |image|
      ensures twice[k] == image[k]
    {
      if k < rowSize * height {
        RowColumn(k, rowSize, height);
        var r, c := k / rowSize, k % rowSize;
        FlippedAt(once, rowSize, height, r, c);
        FlippedAt(image, rowSize, height, height - 1 - r, c);
      }
    }
  }

  /** With an odd number of rows, the middle row stays where it is. */
  lemma MiddleRowUnchanged(image: seq<bv8>, rowSize: nat, height: nat, c: int)
    requires rowSize * height <= |image|
    requires height % 2 == 1 && 0 <= c < rowSize
    ensures 0 <= Offset(height / 2, c, rowSize) < |image|
    ensures Flipped(image, rowSize, height)[Offset(height / 2, c, rowSize)] == image[Offset(height / 2, c, rowSize)]
  {
    FlippedAt(image, rowSize, height, height / 2, c);
  }

  /**
   * dst after `memcpy(dst + dstStart, src + srcStart, n)`: the n bytes of src
   * at srcStart in place of the n bytes at dstStart, everything else kept.
   */
  function Copied(dst: seq<bv8>, dstStart: nat, src: seq<bv8>, srcStart: nat, n: nat): (r: seq<bv8>)
    requires dstStart + n <= |dst| && srcStart + n <= |src|
    ensures |r| == |dst|
    ensures r[..dstStart] == dst[..dstStart] && r[dstStart + n..] == dst[dstStart + n..]
    ensures r[dstStart..dstStart + n] == src[srcStart..srcStart + n]
  {
    seq(|dst|, k requires 0 <= k < |dst| => if dstStart <= k < dstStart + n then src[srcStart + (k - dstStart)] else dst[k])
  }

  /**
   * `memcpy(dst + dstStart, src + srcStart, n)`: the n bytes at srcStart are
   * copied over the n bytes at dstStart; the two ranges may not overlap.
   */
  method CopyBytes(dst: array<bv8>, dstStart: nat, src: array<bv8>, srcStart: nat, n: nat)
    requires dstStart + n <= dst.Length && srcStart + n <= src.Length
    requires src == dst ==> srcStart + n <= dstStart || dstStart + n <= srcStart
    modifies dst
    ensures dst[..] == Copied(old(dst[..]), dstStart, old(src[..]), srcStart, n)
  {
    forall k | dstStart <= k < dstStart + n {
      dst[k] := src[srcStart + (k - dstStart)];
    }
  }

  /** s with its n-byte ranges at a and at b traded. */
  function SwapRanges(s: seq<bv8>, a: nat, b: nat, n: nat): (t: seq<bv8>)
    requires a + n <= b && b + n <= |s|
    ensures |t| == |s|
  {
    seq(|s|, k requires 0 <= k < |s| =>
      if a <= k < a + n then s[b + (k - a)] else if b <= k < b + n then s[a + (k - b)] else s[k])
  }

  /**
   * Copying the range at a to a buffer, the range at b over the range at a,
   * and the buffer over the range at b trades the two ranges.
   */
  lemma CopiesSwapRanges(s: seq<bv8>, buffer: seq<bv8>, a: nat, b: nat, n: nat)
    requires a + n <= b && b + n <= |s| && n <= |buffer|
    ensures Copied(Copied(s, a, s, b, n), b, Copied(buffer, 0, s, a, n), 0, n) == SwapRanges(s, a, b, n)
  {
    var result := Copied(Copied(s, a, s, b, n), b, Copied(buffer, 0, s, a, n), 0, n);
    forall k | 0 <= k < |s|
      ensures result[k] == SwapRanges(s, a, b, n)[k]
    {
    }
  }

  /**
   * The three `memcpy` calls of one step of the flip: the row at row1 goes to
   * tempRow, the row at row2 over it, and tempRow over the row at row2.
   */
  method SwapRows(image: array<bv8>, tempRow: array<bv8>, row1: nat, row2: nat, rowSize: nat)
    requires tempRow != image && rowSize <= tempRow.Length
    requires row1 + rowSize <= row2 && row2 + rowSize <= image.Length
    modifies image, tempRow
    ensures image[..] == SwapRanges(old(image[..]), row1, row2, rowSize)
  {
    CopiesSwapRanges(image[..], tempRow[..], row1, row2, rowSize);
    CopyBytes(tempRow, 0, image, row1, rowSize);
    CopyBytes(image, row1, image, row2, rowSize);
    CopyBytes(image, row2, tempRow, 0, rowSize);
  }

  /** The row whose bytes row r holds once the first `done` row pairs are swapped. */
  function SwappedRow(r: int, height: int, done: int): int
  {
    if r < done || height - done <= r then height - 1 - r else r
  }

  /**
   * image is original with rows 0 .. done - 1 traded with the rows
   * height - 1 .. height - done, and every other byte in place.
   */
  ghost predicate RowsSwapped(image: seq<bv8>, original: seq<bv8>, rowSize: nat, height: nat, done: int)
  {
    && |image| == |original| && rowSize * height <= |original|
    && (forall r, c :: 0 <= r < height && 0 <= c < rowSize ==>
          && 0 <= Offset(r, c, rowSize) < |image|
          && 0 <= Offset(SwappedRow(r, height, done), c, rowSize) < |original|
          && image[Offset(r, c, rowSize)] == original[Offset(SwappedRow(r, height, done), c, rowSize)])
    && (forall k :: rowSize * height <= k < |image| ==> image[k] == original[k])
  }

  /** Before the first step nothing is swapped. */
  lemma NoRowsSwapped(original: seq<bv8>, rowSize: nat, height: nat)
    requires rowSize * height <= |original|
    ensures RowsSwapped(original, original, rowSize, height, 0)
  {
    forall r, c | 0 <= r < height && 0 <= c < rowSize
      ensures 0 <= Offset(r, c, rowSize) < |original|
    {
      OffsetInImage(r, c, rowSize, height);
    }
  }

  /** Trading row i with row height - 1 - i extends the swapped rows by one pair. */
  lemma SwapStep(before: seq<bv8>, original: seq<bv8>, rowSize: nat, height: nat, i: nat)
    requires i < height / 2 && RowsSwapped(before, original, rowSize, height, i)
    ensures Offset(i, 0, rowSize) + rowSize <= Offset(height - 1 - i, 0, rowSize)
    ensures Offset(height - 1 - i, 0, rowSize) + rowSize <= rowSize * height
    ensures RowsSwapped(SwapRanges(before, Offset(i, 0, rowSize), Offset(height - 1 - i, 0, rowSize), rowSize),
      original, rowSize, height, i + 1)
  {
    MulMonotone(i + 1, height - 1 - i, rowSize);
    MulMonotone(height - i, height, rowSize);
    var after := SwapRanges(before, Offset(i, 0, rowSize), Offset(height - 1 - i, 0, rowSize), rowSize);
    forall r, c {:trigger Offset(r, c, rowSize)} | 0 <= r < height && 0 <= c < rowSize
      ensures 0 <= Offset(SwappedRow(r, height, i + 1), c, rowSize) < |original|
      ensures after[Offset(r, c, rowSize)] == original[Offset(SwappedRow(r, height, i + 1), c, rowSize)]
    {
      SwapStepAt(before, original, rowSize, height, i, r, c);
    }
  }

  /** The pixel-level case of SwapStep: byte c of row r after the step. */
  lemma SwapStepAt(before: seq<bv8>, original: seq<bv8>, rowSize: nat, height: nat, i: nat, r: int, c: int)
    requires i < height / 2 && RowsSwapped(before, original, rowSize, height, i)
    requires Offset(i, 0, rowSize) + rowSize <= Offset(height - 1 - i, 0, rowSize)
    requires Offset(height - 1 - i, 0, rowSize) + rowSize <= rowSize * height
    requires 0 <= r < height && 0 <= c < rowSize
    ensures 0 <= Offset(r, c, rowSize) < |before|
    ensures 0 <= Offset(SwappedRow(r, height, i + 1), c, rowSize) < |original|
    ensures SwapRanges(before, Offset(i, 0, rowSize), Offset(height - 1 - i, 0, rowSize), rowSize)[Offset(r, c, rowSize)]
      == original[Offset(SwappedRow(r, height, i + 1), c, rowSize)]
  {
    OffsetInImage(r, c, rowSize, height);
    OffsetInImage(SwappedRow(r, height, i + 1), c, rowSize, height);
    RowRange(r, c, i, rowSize);
    RowRange(r, c, height - 1 - i, rowSize);
    var a, b, k := Offset(i, 0, rowSize), Offset(height - 1 - i, 0, rowSize), Offset(r, c, rowSize);
    var fromRow := if r == i then height - 1 - i else if r == height - 1 - i then i else r;
    assert SwappedRow(fromRow, height, i) == SwappedRow(r, height, i + 1);
    SwappedByte(before, a, b, rowSize, k, Offset(fromRow, c, rowSize));
  }

  /** Byte k of s after trading the ranges at a and b, given the byte it comes from. */
  lemma SwappedByte(s: seq<bv8>, a: nat, b: nat, n: nat, k: int, from: int)
    requires a + n <= b && b + n <= |s| && 0 <= k < |s|
    requires from == if a <= k < a + n then b + (k - a) else if b <= k < b + n then a + (k - b) else k
    ensures SwapRanges(s, a, b, n)[k] == s[from]
  {
  }

  /** Once height / 2 pairs are traded, the image is the flipped original. */
  lemma AllRowsSwapped(image: seq<bv8>, original: seq<bv8>, rowSize: nat, height: nat)
    requires RowsSwapped(image, original, rowSize, height, height / 2)
    ensures image == Flipped(original, rowSize, height)
  {
    forall k | 0 <= k < |image|
      ensures image[k] == Flipped(original, rowSize, height)[k]
    {
      if k < rowSize * height {
        RowColumn(k, rowSize, height);
        FlippedAt(original, rowSize, height, k / rowSize, k % rowSize);
      }
    }
  }

  /**
   * `flipImageVertically`: swaps row i with row height - 1 - i for every i
   * below height / 2, through a one-row buffer; the result is the flipped
   * image.
   */
  method FlipImageVertically(image: array<bv8>, width: int, height: int, channels: int)
    requires 0 <= width && 0 <= height && 0 <= channels
    requires width * channels * height <= image.Length
    modifies image
    ensures image[..] == Flipped(old(image[..]), width * channels, height)
  {
    var rowSize := width * channels;
    ghost var original := image[..];
    var tempRow := new bv8[rowSize];
    NoRowsSwapped(original, rowSize, height);
    for i := 0 to height / 2
      invariant RowsSwapped(image[..], original, rowSize, height, i)
    {
      var row1 := i * rowSize;
      var row2 := (height - i - 1) * rowSize;
      assert row1 == Offset(i, 0, rowSize) && row2 == Offset(height - 1 - i, 0, rowSize);
      SwapStep(image[..], original, rowSize, height, i);
      SwapRows(image, tempRow, row1, row2, rowSize);
    }
    AllRowsSwapped(image[..], original, rowSize, height);
  }

  /**
   * The loader's size test: it warns when `w & (w - 1)` or `h & (h - 1)` is
   * not zero. For a zero side, `0 & -1` is zero, so that side never warns;
   * an odd side above one always does.
   */
  function SizeWarning(w: nat, h: nat): (r: bool)
    ensures (w > 1 && w % 2 == 1) || (h > 1 && h % 2 == 1) ==> r
  {
    OddSideWarns(w);
    OddSideWarns(h);
    (w > 0 && And(w, w - 1) != 0) || (h > 0 && And(h, h - 1) != 0)
  }

  /** `n & (n - 1)` is not zero for an odd n above one. */
  lemma OddSideWarns(n: nat)
    ensures n > 1 && n % 2 == 1 ==> And(n, n - 1) != 0
  {
    if n > 1 && n % 2 == 1 {
      AndPredecessorZeroIffPowerOfTwo(n);
      OddAboveOneIsNotPowerOfTwo(n);
    }
  }

  /** The test warns exactly when a positive side is not a power of two; a zero side passes it. */
  lemma SizeWarningIffNotPowerOfTwo(w: nat, h: nat)
    ensures SizeWarning(w, h) <==> (w > 0 && !IsPowerOfTwo(w)) || (h > 0 && !IsPowerOfTwo(h))
  {
    if w > 0 {
      AndPredecessorZeroIffPowerOfTwo(w);
    }
    if h > 0 {
      AndPredecessorZeroIffPowerOfTwo(h);
    }
  }
}
