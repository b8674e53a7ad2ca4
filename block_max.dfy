/** The coarse per-block maximum index used for empty-space skipping: what each cell of the
    acceleration structure holds, and the scan that computes one cell. */
module BlockMax {
  import opened Grid

  /** Cells per axis for a dimension `dim`: `dim / blockSize + 1`, one more than the
      number of whole blocks (so not a ceiling: an exact multiple gets an extra cell). */
  function BlockCount(dim: nat, blockSize: nat): (n: nat)
    requires blockSize > 0
    ensures (n - 1) * blockSize <= dim < n * blockSize
  {
    var q := dim / blockSize;
    assert dim == q * blockSize + dim % blockSize;
    assert (q + 1) * blockSize == q * blockSize + blockSize;
    q + 1
  }

  /** Samples the builder scans per axis from each block origin: offsets `0 .. BlockCount(dim)`
      inclusive, a span set by the cell count rather than by the block size. */
  function ScanExtent(dim: nat, blockSize: nat): nat
    requires blockSize > 0
  {
    BlockCount(dim, blockSize) + 1
  }

  /** `(z, y, x)` is a sample of `a` at offsets `0 .. ez-1`, `0 .. ey-1`, `0 .. ex-1`
      from `(z0, y0, x0)`. */
  predicate InWindow(a: array3<int>, z0: nat, y0: nat, x0: nat, ez: nat, ey: nat, ex: nat,
                     z: int, y: int, x: int)
  {
    InGrid(a, z, y, x) && z0 <= z < z0 + ez && y0 <= y < y0 + ey && x0 <= x < x0 + ex
  }

  /** `v` is the maximum of 0 and of every in-volume sample of the window: it bounds them
      all and is either 0 or one of them. */
  ghost predicate IsWindowMax(a: array3<int>, z0: nat, y0: nat, x0: nat, ez: nat, ey: nat, ex: nat, v: int)
    reads a
  {
    && 0 <= v
    && (forall z, y, x :: InWindow(a, z0, y0, x0, ez, ey, ex, z, y, x) ==> a[z, y, x] <= v)
    && (v == 0 || exists z, y, x :: InWindow(a, z0, y0, x0, ez, ey, ex, z, y, x) && a[z, y, x] == v)
  }

  /** A block index the builder does not visit starts past the end of the volume. */
  lemma BeyondLastBlock(dim: nat, blockSize: nat, n: nat)
    requires blockSize > 0 && n >= BlockCount(dim, blockSize)
    ensures n * blockSize > dim
  {
    MulMonotone(BlockCount(dim, blockSize), n, blockSize);
  }

  /** The window maximum is determined by the window: no two values qualify. */
  lemma WindowMaxUnique(a: array3<int>, z0: nat, y0: nat, x0: nat, ez: nat, ey: nat, ex: nat, v: int, w: int)
    requires IsWindowMax(a, z0, y0, x0, ez, ey, ex, v)
    requires IsWindowMax(a, z0, y0, x0, ez, ey, ex, w)
    ensures v == w
  {
  }

  /** One cell of the structure: the running maximum over the window, visited y offset outer,
      x offset middle, z offset inner, skipping samples outside the volume. */
  method BlockMaximum(a: array3<int>, z0: nat, y0: nat, x0: nat, ez: nat, ey: nat, ex: nat) returns (m: int)
    ensures IsWindowMax(a, z0, y0, x0, ez, ey, ex, m)
  {
    m := 0;
    ghost var wz, wy, wx := z0, y0, x0;
    var j2 := 0;
    while j2 < ey
      invariant 0 <= j2 <= ey && 0 <= m
      invariant m == 0 || (InWindow(a, z0, y0, x0, ez, ey, ex, wz, wy, wx) && a[wz, wy, wx] == m)
      invariant forall z, y, x :: InWindow(a, z0, y0, x0, ez, ey, ex, z, y, x) && LexBefore(y, x, z, y0 + j2, x0, z0)
                  ==> a[z, y, x] <= m
    {
      var i2 := 0;
      while i2 < ex
        invariant 0 <= i2 <= ex && 0 <= m
        invariant m == 0 || (InWindow(a, z0, y0, x0, ez, ey, ex, wz, wy, wx) && a[wz, wy, wx] == m)
        invariant forall z, y, x :: InWindow(a, z0, y0, x0, ez, ey, ex, z, y, x) && LexBefore(y, x, z, y0 + j2, x0 + i2, z0)
                    ==> a[z, y, x] <= m
      {
        var k2 := 0;
        while k2 < ez
          invariant 0 <= k2 <= ez && 0 <= m
          invariant m == 0 || (InWindow(a, z0, y0, x0, ez, ey, ex, wz, wy, wx) && a[wz, wy, wx] == m)
          invariant forall z, y, x ::
                      InWindow(a, z0, y0, x0, ez, ey, ex, z, y, x) && LexBefore(y, x, z, y0 + j2, x0 + i2, z0 + k2)
                      ==> a[z, y, x] <= m
        {
          var x, y, z := x0 + i2, y0 + j2, z0 + k2;
          if x < a.Length2 && y < a.Length1 && z < a.Length0 && m < a[z, y, x] {
            m := a[z, y, x];
            wz, wy, wx := z, y, x;
          }
          k2 := k2 + 1;
        }
        i2 := i2 + 1;
      }
      j2 := j2 + 1;
    }
  }

  /** `v` is the window maximum for the block `[j, i, k]` (y, x, z block indices), whose
      origin is sample `(i * blockSize, j * blockSize, k * blockSize)`. */
  ghost predicate IsBlockMax(a: array3<int>, blockSize: nat, ez: nat, ey: nat, ex: nat, j: nat, i: nat, k: nat, v: int)
    reads a
  {
    IsWindowMax(a, k * blockSize, j * blockSize, i * blockSize, ez, ey, ex, v)
  }

  /** `v` is the right value for cell `[j, i, k]` (y block, x block, z block) of the structure
      of `a`: the cells the builder visits hold the maximum over the window of extents `ez`,
      `ey`, `ex` anchored at the block origin; the rest keep the zero they were allocated with. */
  ghost predicate IsCellValue(a: array3<int>, blockSize: nat, ez: nat, ey: nat, ex: nat,
                              j: nat, i: nat, k: nat, v: int)
    requires blockSize > 0
    reads a
  {
    if j < BlockCount(a.Length1, blockSize) && i < BlockCount(a.Length2, blockSize) then
      IsBlockMax(a, blockSize, ez, ey, ex, j, i, k, v)
    else
      v == 0
  }

  /** `acc`, shaped `[dimY][dimX][BlockCount(dimZ)]`, is the acceleration structure of `a`
      for the given block size and scan extents. */
  ghost predicate IsAccelerationStructure(acc: array3<int>, a: array3<int>, blockSize: nat, ez: nat, ey: nat, ex: nat)
    requires blockSize > 0
    reads acc, a
  {
    && acc.Length0 == a.Length1 && acc.Length1 == a.Length2 && acc.Length2 == BlockCount(a.Length0, blockSize)
    && forall j: nat, i: nat, k: nat :: InGrid(acc, j, i, k) ==> IsCellValue(a, blockSize, ez, ey, ex, j, i, k, acc[j, i, k])
  }

  /** With a block size of at least 2 the visited cells fit the `[dimY][dimX]` allocation
      (with block size 1 the index `dim` would be visited). */
  lemma BlockCountFits(dim: nat, blockSize: nat)
    requires dim >= 1 && blockSize >= 2
    ensures BlockCount(dim, blockSize) <= dim
  {
    MulMonotone(2, blockSize, BlockCount(dim, blockSize) - 1);
  }

  /** The scan window `0 .. BlockCount(dim)` spans the block's `blockSize + 1` samples
      exactly when `dim >= blockSize * (blockSize - 1)`. */
  lemma BlockCountReachesBlock(dim: nat, blockSize: nat)
    requires blockSize > 0
    ensures BlockCount(dim, blockSize) >= blockSize <==> dim >= blockSize * (blockSize - 1)
  {
    var n := BlockCount(dim, blockSize);
    assert blockSize * (blockSize - 1) == (blockSize - 1) * blockSize;
    if n >= blockSize {
      MulMonotone(blockSize - 1, n - 1, blockSize);
    } else {
      MulMonotone(n, blockSize - 1, blockSize);
    }
  }

  /** Every cell of the structure is non-negative and bounds every in-volume sample of the
      window anchored at its block origin (an unvisited cell's window holds no sample). */
  lemma CellBoundsWindow(acc: array3<int>, a: array3<int>, blockSize: nat, ez: nat, ey: nat, ex: nat,
                         j: nat, i: nat, k: nat)
    requires blockSize > 0 && IsAccelerationStructure(acc, a, blockSize, ez, ey, ex) && InGrid(acc, j, i, k)
    ensures 0 <= acc[j, i, k]
    ensures forall z, y, x :: InWindow(a, k * blockSize, j * blockSize, i * blockSize, ez, ey, ex, z, y, x) ==>
      a[z, y, x] <= acc[j, i, k]
  {
    var v := acc[j, i, k];
    assert IsCellValue(a, blockSize, ez, ey, ex, j, i, k, v);
    if j < BlockCount(a.Length1, blockSize) && i < BlockCount(a.Length2, blockSize) {
      assert IsWindowMax(a, k * blockSize, j * blockSize, i * blockSize, ez, ey, ex, v);
    } else {
      if j >= BlockCount(a.Length1, blockSize) {
        BeyondLastBlock(a.Length1, blockSize, j);
      } else {
        BeyondLastBlock(a.Length2, blockSize, i);
      }
    }
  }

  /** Empty-space skipping is sound within the window: a cell below the isovalue means
      every in-volume sample of its window is below it too. */
  lemma SkipIsSound(acc: array3<int>, a: array3<int>, blockSize: nat, ez: nat, ey: nat, ex: nat,
                    j: nat, i: nat, k: nat, isovalue: int)
    requires blockSize > 0 && IsAccelerationStructure(acc, a, blockSize, ez, ey, ex)
    requires InGrid(acc, j, i, k) && acc[j, i, k] < isovalue
    ensures forall z, y, x :: InWindow(a, k * blockSize, j * blockSize, i * blockSize, ez, ey, ex, z, y, x) ==>
      a[z, y, x] < isovalue
  {
    CellBoundsWindow(acc, a, blockSize, ez, ey, ex, j, i, k);
  }

  /** A cell whose block origin lies outside the volume holds 0. */
  lemma OutsideCellIsZero(acc: array3<int>, a: array3<int>, blockSize: nat, ez: nat, ey: nat, ex: nat,
                          j: nat, i: nat, k: nat)
    requires blockSize > 0 && IsAccelerationStructure(acc, a, blockSize, ez, ey, ex) && InGrid(acc, j, i, k)
    requires k * blockSize >= a.Length0 || j * blockSize >= a.Length1 || i * blockSize >= a.Length2
    ensures acc[j, i, k] == 0
  {
    var v := acc[j, i, k];
    assert IsCellValue(a, blockSize, ez, ey, ex, j, i, k, v);
    if j < BlockCount(a.Length1, blockSize) && i < BlockCount(a.Length2, blockSize) {
      assert IsWindowMax(a, k * blockSize, j * blockSize, i * blockSize, ez, ey, ex, v);
    }
  }

  /** A window of at least `blockSize + 1` samples per axis bounds every in-volume sample at
      offsets `0 .. blockSize` from the block origin, the samples interpolation inside the
      block can reach. */
  lemma WideWindowBoundsBlock(acc: array3<int>, a: array3<int>, blockSize: nat, ez: nat, ey: nat, ex: nat,
                              j: nat, i: nat, k: nat)
    requires blockSize > 0 && IsAccelerationStructure(acc, a, blockSize, ez, ey, ex) && InGrid(acc, j, i, k)
    requires ez > blockSize && ey > blockSize && ex > blockSize
    ensures forall z, y, x ::
      InWindow(a, k * blockSize, j * blockSize, i * blockSize, blockSize + 1, blockSize + 1, blockSize + 1, z, y, x)
      ==> a[z, y, x] <= acc[j, i, k]
  {
    CellBoundsWindow(acc, a, blockSize, ez, ey, ex, j, i, k);
    var z0, y0, x0 := k * blockSize, j * blockSize, i * blockSize;
    forall z, y, x | InWindow(a, z0, y0, x0, blockSize + 1, blockSize + 1, blockSize + 1, z, y, x)
      ensures a[z, y, x] <= acc[j, i, k]
    {
      assert InWindow(a, z0, y0, x0, ez, ey, ex, z, y, x);
    }
  }

  /** On a volume 3 samples wide and 1 deep and high, with blocks of 8, the scan spans offsets
      0 .. 1 only, so cell `[0, 0, 0]` is 0 although its block holds the sample 200 at x = 2. */
  lemma NarrowVolumeMissesSample(a: array3<int>, acc: array3<int>)
    requires a.Length0 == 1 && a.Length1 == 1 && a.Length2 == 3
    requires a[0, 0, 0] == 0 && a[0, 0, 1] == 0 && a[0, 0, 2] == 200
    requires IsAccelerationStructure(acc, a, 8, ScanExtent(1, 8), ScanExtent(1, 8), ScanExtent(3, 8))
    ensures InGrid(acc, 0, 0, 0) && acc[0, 0, 0] == 0
    ensures InWindow(a, 0, 0, 0, 9, 9, 9, 0, 0, 2) && a[0, 0, 2] == 200
  {
    assert IsCellValue(a, 8, 2, 2, 2, 0, 0, 0, acc[0, 0, 0]);
    assert IsWindowMax(a, 0, 0, 0, 2, 2, 2, 0);
    WindowMaxUnique(a, 0, 0, 0, 2, 2, 2, 0, acc[0, 0, 0]);
  }

  /** Scanning `blockSize + 1` samples per axis, the same cell holds the block's maximum 200. */
  lemma BlockWindowSeesSample(a: array3<int>, acc: array3<int>)
    requires a.Length0 == 1 && a.Length1 == 1 && a.Length2 == 3
    requires a[0, 0, 0] == 0 && a[0, 0, 1] == 0 && a[0, 0, 2] == 200
    requires IsAccelerationStructure(acc, a, 8, 9, 9, 9)
    ensures InGrid(acc, 0, 0, 0) && acc[0, 0, 0] == 200
  {
    assert IsCellValue(a, 8, 9, 9, 9, 0, 0, 0, acc[0, 0, 0]);
    assert IsWindowMax(a, 0, 0, 0, 9, 9, 9, 200) by {
      assert InWindow(a, 0, 0, 0, 9, 9, 9, 0, 0, 2);
    }
    WindowMaxUnique(a, 0, 0, 0, 9, 9, 9, 200, acc[0, 0, 0]);
  }
}
