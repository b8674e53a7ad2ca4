/** The `Volume` object: a dense grid of 8-bit intensities indexed `[z][y][x]`, and the
    integer structures derived from it before any rendering: the raw-file decoding, the axis
    swap, the block-maximum acceleration structure and the gradient field. */
module VolumeModel {
  import opened JavaInt
  import opened Grid
  import opened RawLayout
  import opened AxisSwap
  import opened BlockMax
  import opened GradientField

  /** Sample `(i, j, k)` of `a` holds the unsigned value of its byte in the file. */
  ghost predicate Decoded(a: array3<int>, file: seq<JByte>, layout: Layout, k: int, j: int, i: int)
    requires InGrid(a, k, j, i)
    reads a
  {
    && layout.Offset(k, j, i) < layout.Length() <= |file|
    && a[k, j, i] == UnsignedByte(file[layout.Offset(k, j, i)])
  }

  /** What the reader leaves in `a` after reading `file` with `layout` and returning `ok`:
      the declared shape; success exactly when the file fills the buffer and every sample's
      offset lies in it; then every sample decoded. A short file leaves every sample 0. An
      offset past the buffer stops the copy at the first such sample in loop order, with the
      samples before it decoded and the rest still 0. */
  ghost predicate LoadedFrom(a: array3<int>, file: seq<JByte>, layout: Layout, ok: bool)
    reads a
  {
    && a.Length0 == layout.sizeZ && a.Length1 == layout.sizeY && a.Length2 == layout.sizeX
    && (ok <==> layout.Length() <= |file| && layout.Fits())
    && (ok ==> forall k, j, i :: InGrid(a, k, j, i) ==> Decoded(a, file, layout, k, j, i))
    && (|file| < layout.Length() ==> forall k, j, i :: InGrid(a, k, j, i) ==> a[k, j, i] == 0)
    && (!ok && layout.Length() <= |file| ==>
          exists fk, fj, fi :: InGrid(a, fk, fj, fi) && layout.Offset(fk, fj, fi) >= layout.Length()
            && (forall k, j, i :: InGrid(a, k, j, i) && LexBefore(k, j, i, fk, fj, fi) ==> Decoded(a, file, layout, k, j, i))
            && (forall k, j, i :: InGrid(a, k, j, i) && !LexBefore(k, j, i, fk, fj, fi) ==> a[k, j, i] == 0))
  }

  class Volume {
    var data: array3?<int>
    var accelerationStructureBlockSize: int
    var accelerationStructure: array3?<int>

    /** Every sample of a loaded volume is an 8-bit intensity. */
    ghost predicate Valid()
      reads this, data
    {
      data != null ==> AllBytes(data)
    }

    constructor ()
      ensures Valid()
      ensures data == null && accelerationStructure == null && accelerationStructureBlockSize == 8
    {
      data := null;
      accelerationStructureBlockSize := 8;
      accelerationStructure := null;
    }

    /** Reads a raw volume of `sizeX * sizeY * sizeZ` one-byte samples after a header of
        `headerSize` bytes, looking sample `(i, j, k)` up at `k * 256 * sizeY + j * sizeX + i + headerSize`. */
    method ReadData(file: seq<JByte>, sizeX: nat, sizeY: nat, sizeZ: nat, headerSize: nat) returns (ok: bool)
      modifies this`data
      ensures fresh(data) && Valid()
      ensures LoadedFrom(data, file, Legacy(sizeX, sizeY, sizeZ, headerSize), ok)
    {
      ok := Load(file, Legacy(sizeX, sizeY, sizeZ, headerSize));
    }

    /** The same reader with consecutive z slices `sizeX * sizeY` bytes apart, the layout
        the buffer is sized for. */
    method ReadDataRowMajor(file: seq<JByte>, sizeX: nat, sizeY: nat, sizeZ: nat, headerSize: nat) returns (ok: bool)
      modifies this`data
      ensures fresh(data) && Valid()
      ensures LoadedFrom(data, file, RowMajor(sizeX, sizeY, sizeZ, headerSize), ok)
      ensures ok <==> RowMajor(sizeX, sizeY, sizeZ, headerSize).Length() <= |file|
    {
      RowMajorFits(sizeX, sizeY, sizeZ, headerSize);
      ok := Load(file, RowMajor(sizeX, sizeY, sizeZ, headerSize));
    }

    /** The reader's body: allocate the zeroed volume, fill the buffer from the file (a short
        file fails), then copy sample by sample, z outer, x inner, failing at the first
        offset past the buffer. */
    method Load(file: seq<JByte>, layout: Layout) returns (ok: bool)
      modifies this`data
      ensures fresh(data) && Valid()
      ensures LoadedFrom(data, file, layout, ok)
    {
      var length := layout.Length();
      var samples := new int[layout.sizeZ, layout.sizeY, layout.sizeX]((_, _, _) => 0);
      data := samples;
      if |file| < length {
        return false;
      }
      var dataBytes := file[..length];
      var k := 0;
      while k < layout.sizeZ
        invariant 0 <= k <= layout.sizeZ && data == samples && AllBytes(samples)
        invariant forall z, y, x :: InGrid(samples, z, y, x) && LexBefore(z, y, x, k, 0, 0) ==> Decoded(samples, file, layout, z, y, x)
        invariant forall z, y, x :: InGrid(samples, z, y, x) && !LexBefore(z, y, x, k, 0, 0) ==> samples[z, y, x] == 0
      {
        var j := 0;
        while j < layout.sizeY
          invariant 0 <= j <= layout.sizeY && data == samples && AllBytes(samples)
          invariant forall z, y, x :: InGrid(samples, z, y, x) && LexBefore(z, y, x, k, j, 0) ==> Decoded(samples, file, layout, z, y, x)
          invariant forall z, y, x :: InGrid(samples, z, y, x) && !LexBefore(z, y, x, k, j, 0) ==> samples[z, y, x] == 0
        {
          var i := 0;
          while i < layout.sizeX
            invariant 0 <= i <= layout.sizeX && data == samples && AllBytes(samples)
            invariant forall z, y, x :: InGrid(samples, z, y, x) && LexBefore(z, y, x, k, j, i) ==> Decoded(samples, file, layout, z, y, x)
            invariant forall z, y, x :: InGrid(samples, z, y, x) && !LexBefore(z, y, x, k, j, i) ==> samples[z, y, x] == 0
          {
            var offset := layout.Offset(k, j, i);
            if offset >= length {
              // the index exception is caught and the reader reports failure
              assert InGrid(samples, k, j, i) && layout.Offset(k, j, i) >= layout.Length();
              return false;
            }
            samples[k, j, i] := UnsignedByte(dataBytes[offset]);
            i := i + 1;
          }
          j := j + 1;
        }
        k := k + 1;
      }
      forall z: nat, y: nat, x: nat | z < layout.sizeZ && y < layout.sizeY && x < layout.sizeX
        ensures layout.Offset(z, y, x) < layout.Length()
      {
        assert InGrid(samples, z, y, x) && Decoded(samples, file, layout, z, y, x);
      }
      ok := true;
    }

    /** Rebuilds the volume so that the chosen axis becomes the depth axis: 2 keeps it,
        0 exchanges z and x, every other value exchanges z and y. */
    method SwapZAxis(axis: int)
      requires Valid()
      requires axis != 2 ==> data != null && data.Length0 > 0 && data.Length1 > 0
      modifies this`data
      ensures Valid()
      ensures axis == 2 ==> data == old(data)
      ensures axis == 0 ==> data != null && fresh(data) && IsSwapXZ(old(data), data)
      ensures axis != 0 && axis != 2 ==> data != null && fresh(data) && IsSwapYZ(old(data), data)
    {
      if axis == 2 {
        return;
      }
      var src := data;
      var dimX, dimY, dimZ := src.Length2, src.Length1, src.Length0;
      var newvol: array3<int>;
      if axis == 0 {
        newvol := new int[dimX, dimY, dimZ];
        var k := 0;
        while k < dimZ
          invariant 0 <= k <= dimZ
          invariant forall z, y, x :: InGrid(src, z, y, x) && LexBefore(z, y, x, k, 0, 0) ==> newvol[x, y, z] == src[z, y, x]
        {
          var j := 0;
          while j < dimY
            invariant 0 <= j <= dimY
            invariant forall z, y, x :: InGrid(src, z, y, x) && LexBefore(z, y, x, k, j, 0) ==> newvol[x, y, z] == src[z, y, x]
          {
            var i := 0;
            while i < dimX
              invariant 0 <= i <= dimX
              invariant forall z, y, x :: InGrid(src, z, y, x) && LexBefore(z, y, x, k, j, i) ==> newvol[x, y, z] == src[z, y, x]
            {
              newvol[i, j, k] := src[k, j, i];
              i := i + 1;
            }
            j := j + 1;
          }
          k := k + 1;
        }
        SwapXZKeepsBytes(src, newvol);
      } else {
        newvol := new int[dimY, dimZ, dimX];
        var k := 0;
        while k < dimZ
          invariant 0 <= k <= dimZ
          invariant forall z, y, x :: InGrid(src, z, y, x) && LexBefore(z, y, x, k, 0, 0) ==> newvol[y, z, x] == src[z, y, x]
        {
          var j := 0;
          while j < dimY
            invariant 0 <= j <= dimY
            invariant forall z, y, x :: InGrid(src, z, y, x) && LexBefore(z, y, x, k, j, 0) ==> newvol[y, z, x] == src[z, y, x]
          {
            var i := 0;
            while i < dimX
              invariant 0 <= i <= dimX
              invariant forall z, y, x :: InGrid(src, z, y, x) && LexBefore(z, y, x, k, j, i) ==> newvol[y, z, x] == src[z, y, x]
            {
              newvol[j, k, i] := src[k, j, i];
              i := i + 1;
            }
            j := j + 1;
          }
          k := k + 1;
        }
        SwapYZKeepsBytes(src, newvol);
      }
      data := newvol;
    }

    /** Builds the acceleration structure as the source does: `[dimY][dimX][dimZ / B + 1]`
        cells, of which the `[dimY / B + 1][dimX / B + 1]` corner holds the maximum over the
        window of offsets `0 .. dim / B + 1` per axis from the block origin. */
    method CreateAccelerationStructure()
      requires data != null && data.Length0 > 0 && data.Length1 > 0 && data.Length2 > 0
      requires accelerationStructureBlockSize >= 2
      modifies this`accelerationStructure
      ensures accelerationStructure != null && fresh(accelerationStructure)
      ensures IsAccelerationStructure(accelerationStructure, data, accelerationStructureBlockSize,
                ScanExtent(data.Length0, accelerationStructureBlockSize),
                ScanExtent(data.Length1, accelerationStructureBlockSize),
                ScanExtent(data.Length2, accelerationStructureBlockSize))
    {
      var b := accelerationStructureBlockSize;
      BuildAccelerationStructure(ScanExtent(data.Length0, b), ScanExtent(data.Length1, b), ScanExtent(data.Length2, b));
    }

    /** The structure with the window the builder's own comment asks for (9 x 9 x 9 samples
        for blocks of 8): `blockSize + 1` samples per axis, the samples trilinear interpolation
        inside the block reads. */
    method CreateBlockAccelerationStructure()
      requires data != null && data.Length0 > 0 && data.Length1 > 0 && data.Length2 > 0
      requires accelerationStructureBlockSize >= 2
      modifies this`accelerationStructure
      ensures accelerationStructure != null && fresh(accelerationStructure)
      ensures IsAccelerationStructure(accelerationStructure, data, accelerationStructureBlockSize,
                accelerationStructureBlockSize + 1, accelerationStructureBlockSize + 1, accelerationStructureBlockSize + 1)
    {
      var b := accelerationStructureBlockSize;
      BuildAccelerationStructure(b + 1, b + 1, b + 1);
    }

    /** The builder's loops over the cells, y block outer, z block inner; each visited cell is
        the running maximum of its window (`BlockMaximum`), the rest stay zero. */
    method BuildAccelerationStructure(ez: nat, ey: nat, ex: nat)
      requires data != null && data.Length0 > 0 && data.Length1 > 0 && data.Length2 > 0
      requires accelerationStructureBlockSize >= 2
      modifies this`accelerationStructure
      ensures accelerationStructure != null && fresh(accelerationStructure)
      ensures IsAccelerationStructure(accelerationStructure, data, accelerationStructureBlockSize, ez, ey, ex)
    {
      var b := accelerationStructureBlockSize;
      var dimX, dimY, dimZ := data.Length2, data.Length1, data.Length0;
      var newDimX, newDimY, newDimZ := BlockCount(dimX, b), BlockCount(dimY, b), BlockCount(dimZ, b);
      BlockCountFits(dimX, b);
      BlockCountFits(dimY, b);
      var acc := new int[dimY, dimX, newDimZ]((_, _, _) => 0);
      accelerationStructure := acc;
      var j := 0;
      while j < newDimY
        invariant 0 <= j <= newDimY && accelerationStructure == acc
        invariant forall y, x, z :: InGrid(acc, y, x, z) && (y >= newDimY || x >= newDimX) ==> acc[y, x, z] == 0
        invariant forall y, x, z :: InGrid(acc, y, x, z) && y < j && x < newDimX ==>
                    IsBlockMax(data, b, ez, ey, ex, y, x, z, acc[y, x, z])
      {
        var i := 0;
        while i < newDimX
          invariant 0 <= i <= newDimX && accelerationStructure == acc
          invariant forall y, x, z :: InGrid(acc, y, x, z) && (y >= newDimY || x >= newDimX) ==> acc[y, x, z] == 0
          invariant forall y, x, z :: InGrid(acc, y, x, z) && (y < j || (y == j && x < i)) && x < newDimX ==>
                      IsBlockMax(data, b, ez, ey, ex, y, x, z, acc[y, x, z])
        {
          FillColumn(acc, j, i, ez, ey, ex);
          i := i + 1;
        }
        j := j + 1;
      }
      forall y: nat, x: nat, z: nat | InGrid(acc, y, x, z)
        ensures IsCellValue(data, b, ez, ey, ex, y, x, z, acc[y, x, z])
      {
      }
    }

    /** The builder's innermost loop: every z block of column `[j, i]` becomes the running
        maximum of its window; the other columns are left alone. */
    method FillColumn(acc: array3<int>, j: nat, i: nat, ez: nat, ey: nat, ex: nat)
      requires data != null && accelerationStructureBlockSize >= 2 && acc != data
      requires j < acc.Length0 && i < acc.Length1
      modifies acc
      ensures forall z :: 0 <= z < acc.Length2 ==> IsBlockMax(data, accelerationStructureBlockSize, ez, ey, ex, j, i, z, acc[j, i, z])
      ensures forall y, x, z :: InGrid(acc, y, x, z) && (y != j || x != i) ==> acc[y, x, z] == old(acc[y, x, z])
    {
      var b := accelerationStructureBlockSize;
      var k := 0;
      while k < acc.Length2
        invariant 0 <= k <= acc.Length2
        invariant forall z :: 0 <= z < k ==> IsBlockMax(data, b, ez, ey, ex, j, i, z, acc[j, i, z])
        invariant forall y, x, z :: InGrid(acc, y, x, z) && (y != j || x != i) ==> acc[y, x, z] == old(acc[y, x, z])
      {
        var m := BlockMaximum(data, k * b, j * b, i * b, ez, ey, ex);
        acc[j, i, k] := m;
        k := k + 1;
      }
    }

    /** The central-difference gradient of every interior voxel, field cell `[k - 1, j - 1, i - 1]`
        holding voxel `(i, j, k)`'s x, y and z components. */
    method Gradient() returns (gradient: array4<int>)
      requires data != null && data.Length0 >= 2 && data.Length1 >= 2 && data.Length2 >= 2
      ensures gradient.Length0 == data.Length0 - 2 && gradient.Length1 == data.Length1 - 2
      ensures gradient.Length2 == data.Length2 - 2 && gradient.Length3 == 3
      ensures forall k, j, i, c :: InField(data, k, j, i) && 0 <= c < 3 ==> gradient[k, j, i, c] == GradientAt(data, k, j, i, c)
    {
      var dimX, dimY, dimZ := data.Length2, data.Length1, data.Length0;
      gradient := new int[dimZ - 2, dimY - 2, dimX - 2, 3];
      var k := 1;
      while k < dimZ - 1
        invariant 1 <= k <= dimZ - 1
        invariant forall z, y, x, c :: InField(data, z, y, x) && 0 <= c < 3 && LexBefore(z, y, x, k - 1, 0, 0) ==> gradient[z, y, x, c] == GradientAt(data, z, y, x, c)
      {
        var j := 1;
        while j < dimY - 1
          invariant 1 <= j <= dimY - 1
          invariant forall z, y, x, c :: InField(data, z, y, x) && 0 <= c < 3 && LexBefore(z, y, x, k - 1, j - 1, 0) ==> gradient[z, y, x, c] == GradientAt(data, z, y, x, c)
        {
          var i := 1;
          while i < dimX - 1
            invariant 1 <= i <= dimX - 1
            invariant forall z, y, x, c :: InField(data, z, y, x) && 0 <= c < 3 && LexBefore(z, y, x, k - 1, j - 1, i - 1) ==> gradient[z, y, x, c] == GradientAt(data, z, y, x, c)
          {
            gradient[k - 1, j - 1, i - 1, 0] := CentralDifference(data[k, j, i + 1], data[k, j, i - 1]);
            gradient[k - 1, j - 1, i - 1, 1] := CentralDifference(data[k, j + 1, i], data[k, j - 1, i]);
            gradient[k - 1, j - 1, i - 1, 2] := CentralDifference(data[k + 1, j, i], data[k - 1, j, i]);
            i := i + 1;
          }
          j := j + 1;
        }
        k := k + 1;
      }
    }
  }
}
