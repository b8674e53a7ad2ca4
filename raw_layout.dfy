/** Where the raw-file reader finds each sample: a header of `headerSize` bytes, then one
    unsigned byte per sample, sample `(i, j, k)` (x, y, z) at
    `k * strideZ + j * sizeX + i + headerSize`. */
module RawLayout {
  import opened Grid

  datatype Layout = Layout(sizeX: nat, sizeY: nat, sizeZ: nat, headerSize: nat, strideZ: nat)
  {
    /** Length of the buffer the reader allocates and fills from the file. */
    function Length(): nat
    {
      sizeX * sizeY * sizeZ + headerSize
    }

    /** Buffer index of sample `(i, j, k)`. */
    function Offset(k: nat, j: nat, i: nat): nat
    {
      k * strideZ + j * sizeX + i + headerSize
    }

    /** Every sample of the declared volume lies inside the buffer. */
    ghost predicate Fits()
    {
      forall k: nat, j: nat, i: nat :: k < sizeZ && j < sizeY && i < sizeX ==> Offset(k, j, i) < Length()
    }
  }

  /** The layout the reader uses: consecutive z slices lie `256 * sizeY` bytes apart,
      a distance that matches the buffer only when `sizeX == 256`. */
  function Legacy(sizeX: nat, sizeY: nat, sizeZ: nat, headerSize: nat): Layout
  {
    Layout(sizeX, sizeY, sizeZ, headerSize, 256 * sizeY)
  }

  /** The row-major layout the buffer length is sized for: z slices `sizeX * sizeY` bytes apart. */
  function RowMajor(sizeX: nat, sizeY: nat, sizeZ: nat, headerSize: nat): Layout
  {
    Layout(sizeX, sizeY, sizeZ, headerSize, sizeX * sizeY)
  }

  /** Two-digit numbers in base `n` are equal only digit by digit. */
  lemma DigitsUnique(q: nat, r: nat, q': nat, r': nat, n: nat)
    requires r < n && r' < n
    requires q * n + r == q' * n + r'
    ensures q == q' && r == r'
  {
    if q < q' {
      MulMonotone(q + 1, q', n);
      assert false;
    } else if q' < q {
      MulMonotone(q' + 1, q, n);
      assert false;
    }
  }

  /** In the row-major layout a sample's offset is the header plus its row-major rank. */
  lemma RowMajorRank(sizeX: nat, sizeY: nat, sizeZ: nat, headerSize: nat, k: nat, j: nat, i: nat)
    ensures RowMajor(sizeX, sizeY, sizeZ, headerSize).Offset(k, j, i) == headerSize + (k * sizeY + j) * sizeX + i
  {
    calc {
      k * (sizeX * sizeY) + j * sizeX;
      (k * sizeY) * sizeX + j * sizeX;
      (k * sizeY + j) * sizeX;
    }
  }

  /** A rank below `count` times a digit below `n` stays below `count * n`. */
  lemma RankBound(r: nat, d: nat, count: nat, n: nat)
    requires r < count && d < n
    ensures r * n + d < count * n
  {
    MulMonotone(r + 1, count, n);
  }

  /** One sample's row-major offset lies inside the file. */
  lemma RowMajorInRange(sizeX: nat, sizeY: nat, sizeZ: nat, headerSize: nat, k: nat, j: nat, i: nat)
    requires k < sizeZ && j < sizeY && i < sizeX
    ensures RowMajor(sizeX, sizeY, sizeZ, headerSize).Offset(k, j, i)
          < RowMajor(sizeX, sizeY, sizeZ, headerSize).Length()
  {
    RowMajorRank(sizeX, sizeY, sizeZ, headerSize, k, j, i);
    RankBound(k, j, sizeZ, sizeY);
    RankBound(k * sizeY + j, i, sizeZ * sizeY, sizeX);
    assert sizeZ * sizeY * sizeX == sizeX * sizeY * sizeZ;
  }

  /** The row-major layout keeps every sample inside the buffer. */
  lemma RowMajorFits(sizeX: nat, sizeY: nat, sizeZ: nat, headerSize: nat)
    ensures RowMajor(sizeX, sizeY, sizeZ, headerSize).Fits()
  {
    var l := RowMajor(sizeX, sizeY, sizeZ, headerSize);
    forall k: nat, j: nat, i: nat | k < sizeZ && j < sizeY && i < sizeX
      ensures l.Offset(k, j, i) < l.Length()
    {
      RowMajorInRange(sizeX, sizeY, sizeZ, headerSize, k, j, i);
    }
  }

  /** The row-major layout reads each byte for at most one sample. */
  lemma RowMajorInjective(sizeX: nat, sizeY: nat, sizeZ: nat, headerSize: nat,
                          k: nat, j: nat, i: nat, k': nat, j': nat, i': nat)
    requires j < sizeY && i < sizeX && j' < sizeY && i' < sizeX
    requires RowMajor(sizeX, sizeY, sizeZ, headerSize).Offset(k, j, i)
          == RowMajor(sizeX, sizeY, sizeZ, headerSize).Offset(k', j', i')
    ensures k == k' && j == j' && i == i'
  {
    RowMajorRank(sizeX, sizeY, sizeZ, headerSize, k, j, i);
    RowMajorRank(sizeX, sizeY, sizeZ, headerSize, k', j', i');
    DigitsUnique(k * sizeY + j, i, k' * sizeY + j', i', sizeX);
    DigitsUnique(k, j, k', j', sizeY);
  }

  /** With `sizeX == 256` the reader's layout is the row-major one, so every sample fits. */
  lemma LegacyFitsAtWidth256(sizeY: nat, sizeZ: nat, headerSize: nat)
    ensures Legacy(256, sizeY, sizeZ, headerSize).Fits()
  {
    assert Legacy(256, sizeY, sizeZ, headerSize) == RowMajor(256, sizeY, sizeZ, headerSize);
    RowMajorFits(256, sizeY, sizeZ, headerSize);
  }

  /** A narrower volume whose whole file is present is rejected: for a 128 x 1 x 3 volume
      sample (0, 0, 2) is looked up at byte 512 of a 384-byte buffer. */
  lemma LegacyRejectsNarrow()
    ensures Legacy(128, 1, 3, 0).Length() == 384
    ensures Legacy(128, 1, 3, 0).Offset(2, 0, 0) == 512
    ensures !Legacy(128, 1, 3, 0).Fits()
  {
    assert Legacy(128, 1, 3, 0).Offset(2, 0, 0) >= Legacy(128, 1, 3, 0).Length();
  }

  /** A wider volume fits the buffer but reads one byte for two samples: in a 512 x 2 x 2
      volume samples (0, 0, 1) and (0, 1, 0) both come from byte 512. */
  lemma LegacyCollidesWhenWide()
    ensures Legacy(512, 2, 2, 0).Fits()
    ensures Legacy(512, 2, 2, 0).Offset(1, 0, 0) == Legacy(512, 2, 2, 0).Offset(0, 1, 0) == 512
  {
  }
}
