# Volume core of volVis

A model, in Dafny, of the integer part of the `Volume` class of the volVis ray caster: the
dense grid of 8-bit intensities indexed `[z][y][x]`, and the four operations that build or
rebuild integer structures from it before any image is rendered.

- `ReadData` decodes a raw file (a header, then one unsigned byte per sample) into the
  grid. The file's contents are a parameter (`seq<JByte>`, Java's signed byte); a file
  shorter than the buffer makes the reader fail, as `readFully` does, and an offset past
  the buffer (an index exception caught by the reader) fails the read half-way.
- `SwapZAxis` rebuilds the grid so that the x or the y axis becomes the depth axis.
- `CreateAccelerationStructure` builds the block-maximum grid used for empty-space
  skipping, shaped `[dimY][dimX][dimZ / B + 1]`.
- `Gradient` computes the central-difference gradient of every interior voxel, with
  Java's truncating integer division.

The modules follow that structure: `JavaInt` (Java byte and division), `Grid` (predicates on
3-D grids), `RawLayout` (where a sample's byte lies in the file), `AxisSwap`, `BlockMax`,
`GradientField`, and `VolumeModel`, whose class `Volume` holds the fields `data`,
`accelerationStructure` and `accelerationStructureBlockSize`. Its methods change them in place
with the source's loops. Each method is proved against a specification predicate or function
from the other modules, and the properties of those are proved as lemmas.

Preconditions are the exceptions the source does not catch. `data` must be non-null.
`data[0][0]` needs non-empty z and y axes. `Gradient` allocates arrays of size `dim - 2`, so
every axis needs at least 2 samples. `CreateAccelerationStructure` indexes cell
`dim / B` of a `dim`-sized axis, so it needs `B >= 2`, and it indexes column 0 of every axis,
so every axis must be non-empty.

The builder's comment at `volVis.java:87` says a block of 8 x 8 x 8 cells needs 9 x 9 x 9
samples, a `(B + 1)`-sample window. The code allocates `[dimY][dimX][dimZ / B + 1]`, visits
`dim / B + 1` cells per axis and scans offsets `0 .. dim / B + 1`. The model follows the code,
and models the window the comment asks for beside it (see Findings).

## Model

| member | source | states |
|---|---|---|
| JavaInt.UnsignedByte | volVis.java:63 | `b & 0xff` is the unsigned reading of the byte: it lies in [0, 255] and agrees with the byte modulo 256 |
| JavaInt.TruncDiv | volVis.java:114-116 | Java's `/` rounds toward zero: the quotient times the divisor undershoots a non-negative dividend and overshoots a negative one by less than the divisor |
| JavaInt.TruncDivNegates | volVis.java:114-116 | truncating division is odd in its dividend |
| JavaInt.TruncDivOfMinusThree | volVis.java:114-116 | Java gives `-3 / 2 == -1` where Dafny's Euclidean `/` gives -2, so Dafny's operator alone would be wrong here |
| RawLayout.RowMajorInRange | volVis.java:49-63 | with stride `sizeX * sizeY`, each sample's offset lies inside the `sizeX * sizeY * sizeZ + headerSize` buffer |
| RawLayout.RowMajorFits | volVis.java:49-63 | with stride `sizeX * sizeY`, every sample of the declared grid lies inside the buffer |
| RawLayout.RowMajorInjective | volVis.java:63 | with stride `sizeX * sizeY`, no two samples read the same byte |
| RawLayout.LegacyFitsAtWidth256 | volVis.java:63 | with the literal stride `256 * sizeY`, every sample fits when `sizeX == 256`, the width the literal assumes |
| RawLayout.LegacyRejectsNarrow | volVis.java:49-68 | a complete 128 x 1 x 3 file makes the literal stride look up byte 512 of a 384-byte buffer, so the read fails |
| RawLayout.LegacyCollidesWhenWide | volVis.java:63 | in a 512 x 2 x 2 volume, the literal stride reads samples (0,0,1) and (0,1,0) from the same byte 512 |
| AxisSwap.SwapXZSymmetric | volVis.java:265-271 | exchanging z and x is its own inverse relation |
| AxisSwap.SwapYZSymmetric | volVis.java:273-280 | exchanging z and y is its own inverse relation |
| AxisSwap.SwapXZTwice | volVis.java:265-271 | swapping z and x twice gives back the original shape and every sample |
| AxisSwap.SwapYZTwice | volVis.java:273-280 | swapping z and y twice gives back the original shape and every sample |
| AxisSwap.SwapXZKeepsBytes | volVis.java:265-271 | an x/z swap of an 8-bit volume is 8-bit |
| AxisSwap.SwapYZKeepsBytes | volVis.java:273-280 | a y/z swap of an 8-bit volume is 8-bit |
| BlockMax.BlockCount | volVis.java:78-80 | `dim / B + 1` cells per axis: the last visited block starts inside the axis (`(n - 1) * B <= dim`) and one more block would start past it (`dim < n * B`) |
| BlockMax.BlockMaximum | volVis.java:86-95 | the scan returns the maximum of 0 and of every in-volume sample of the window: it bounds each such sample and is 0 or one of them |
| BlockMax.WindowMaxUnique | volVis.java:86-95 | that maximum is unique, so a cell's value is determined by the volume |
| BlockMax.BeyondLastBlock | volVis.java:78-84 | a block index the builder does not visit starts past the end of the volume |
| BlockMax.BlockCountFits | volVis.java:78-83 | with `B >= 2`, the `dim / B + 1` visited cells fit the `dimY` and `dimX` axes of the allocation |
| BlockMax.BlockCountReachesBlock | volVis.java:78-89 | the scan `0 .. dim / B + 1` covers the block's `B + 1` samples exactly when `dim >= B * (B - 1)` |
| BlockMax.CellBoundsWindow | volVis.java:81-97 | every cell is non-negative and bounds every in-volume sample of the window at its block origin |
| BlockMax.SkipIsSound | volVis.java:81-97 | if a cell is below the isovalue, every in-volume sample of its window is below it too |
| BlockMax.OutsideCellIsZero | volVis.java:81-97 | a cell whose block origin lies outside the volume holds 0 |
| BlockMax.WideWindowBoundsBlock | volVis.java:87-89 | a window of at least `B + 1` samples per axis makes the cell bound every sample within `0 .. B` of the block origin, which is what trilinear interpolation inside the block reads |
| BlockMax.NarrowVolumeMissesSample | volVis.java:87-95 | on a 1 x 1 x 3 volume `[0, 0, 200]` with `B = 8`, the scan window as written leaves cell `[0,0,0]` at 0 although sample 200 lies in the block |
| BlockMax.BlockWindowSeesSample | volVis.java:87-95 | on the same volume, a `B + 1` window puts 200 in cell `[0,0,0]` |
| GradientField.CentralDifference | volVis.java:114-116 | a component is half the difference of its neighbours rounded toward zero: twice it differs from the difference by at most 1, never has the opposite sign, and never exceeds the difference in magnitude |
| GradientField.CentralDifferenceAntisymmetric | volVis.java:114-116 | swapping the two neighbours negates a component |
| GradientField.CentralDifferenceOfBytes | volVis.java:114-116 | half the difference of two 8-bit intensities lies in [-127, 127] |
| GradientField.GradientOfBytesBounded | volVis.java:109-117 | on an 8-bit volume every gradient component lies in [-127, 127] |
| GradientField.GradientOfRamp | volVis.java:114-116 | a ramp `I = x` has gradient (1, 0, 0) at every interior voxel |
| GradientField.GradientOfConstant | volVis.java:114-116 | a constant volume has zero gradient |
| VolumeModel.Volume.constructor | volVis.java:14-20 | a new volume has no data and no structure, and its block size is 8 |
| VolumeModel.Volume.ReadData | volVis.java:46-71 | a fresh `[sizeZ][sizeY][sizeX]` grid of intensities. Success holds exactly when the file fills the buffer and every offset fits; then every sample is its byte's unsigned value. A short file leaves every sample 0. An offset past the buffer leaves the samples before it decoded and the rest 0 |
| VolumeModel.Volume.ReadDataRowMajor | volVis.java:46-71 | the same reader with stride `sizeX * sizeY`: it succeeds exactly when the file fills the buffer, and then decodes every sample |
| VolumeModel.Volume.Load | volVis.java:49-70 | the shared reader body, for any layout: the same outcome as `ReadData` |
| VolumeModel.Volume.SwapZAxis | volVis.java:257-282 | axis 2 leaves `data` as it is; axis 0 replaces it with its x/z transpose; any other axis replaces it with its y/z transpose; intensities stay 8-bit |
| VolumeModel.Volume.CreateAccelerationStructure | volVis.java:73-98 | a fresh `[dimY][dimX][dimZ / B + 1]` structure. Visited cells hold the maximum over the scan window `0 .. dim / B + 1` per axis, and the others hold 0 |
| VolumeModel.Volume.CreateBlockAccelerationStructure | volVis.java:73-98 | the same structure with the `B + 1` window the builder's comment calls for |
| VolumeModel.Volume.BuildAccelerationStructure | volVis.java:81-97 | the builder loops for any window extents: each visited cell is its window's maximum, and the rest stay 0 |
| VolumeModel.Volume.FillColumn | volVis.java:84-96 | the innermost loop makes every z cell of one column its window's maximum and leaves the other columns unchanged |
| VolumeModel.Volume.Gradient | volVis.java:103-119 | a `[dimZ-2][dimY-2][dimX-2][3]` field whose cell `[k,j,i]` holds voxel `(i+1, j+1, k+1)`'s truncated central differences along x, y and z |

## Left out

- Opening the file and the stream, and the exception those raise for a missing file: the file's contents are a parameter. The failure message printed on error is left out.
- Java's 32-bit `int` overflow in `sizeX*sizeY*sizeZ+headerSize`, in the sample offset and in the block coordinates: integers are unbounded. Volumes large enough to overflow are not modelled.
- VolumeModel.Volume.ReadData: the sizes and the header are `nat`, so negative values are not modelled. In Java a negative size makes the allocation at `volVis.java:50` throw `NegativeArraySizeException` outside the try. A negative header with a non-negative buffer length passes both allocations; the copy loop then indexes a negative offset,, and the reader reports failure. (An empty grid cannot meet this case: its buffer length would be the negative header.)
- The floating-point members `zoom`, `resolution` and `samplingDistance`, their getters and setters, `TrilinearInterpolation`, and the renderers that read the acceleration structure and the gradient: they are floating point and image output, outside the integer core.
- `SaveImage`, the `volVis` class and its `main`: image files and the command line.
- Jagged Java arrays whose inner rows differ in length: every array the core allocates is rectangular, so `array3` and `array4` model them.
- VolumeModel.Volume.CreateAccelerationStructure: the window scan is a separate method (`BlockMaximum`) that keeps the running maximum in a local rather than in the array cell. The result, the visiting order and the comparison are the same.
- VolumeModel.Volume.Gradient: it does not state that the field is a newly allocated array, which the Java code also does not need to promise to its callers. It does not require the samples to be bytes. The [-127, 127] bound is proved separately (`GradientOfBytesBounded`) for 8-bit volumes.

## Findings

| source | as written | input that shows it | evidently intended | confidence | as-written member | corrected member |
|---|---|---|---|---|---|---|
| volVis.java:63 | sample `(i, j, k)` is read at `k*256*sizeY + j*sizeX + i + headerSize`, a z stride that assumes `sizeX == 256` | a complete 128 x 1 x 3 file: sample (0,0,2) is looked up at byte 512 of a 384-byte buffer and the read fails; a 512 x 2 x 2 file reads two samples from byte 512 | z stride `sizeX * sizeY`, under which every sample fits and no two share a byte | not executed | RawLayout.LegacyRejectsNarrow | VolumeModel.Volume.ReadDataRowMajor |
| volVis.java:87-89 | the window spans offsets `0 .. newDim` per axis (`newDim = dim / B + 1`), not the `B + 1` samples the comment asks for | a 1 x 1 x 3 volume `[0, 0, 200]` with `B = 8`: cell `[0,0,0]` is 0 although its block holds 200, so the cell does not bound the samples of its own block | offsets `0 .. B` per axis, so that a cell bounds every sample interpolation inside its block reads | not executed | BlockMax.NarrowVolumeMissesSample | VolumeModel.Volume.CreateBlockAccelerationStructure |
