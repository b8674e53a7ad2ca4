/** The central-difference gradient field: one integer 3-vector per interior voxel, stored
    with every index shifted by -1 so that field cell `[0, 0, 0]` belongs to voxel (1, 1, 1). */
module GradientField {
  import opened JavaInt
  import opened Grid

  /** One component: the difference of the two neighbours along an axis, halved with
      Java's truncating division. */
  function CentralDifference(next: int, prev: int): (r: int)
    ensures -1 <= (next - prev) - 2 * r <= 1
    ensures 0 <= r * (next - prev)
    ensures next - prev >= 0 ==> 2 * r <= next - prev
    ensures next - prev < 0 ==> next - prev <= 2 * r
  {
    TruncDiv(next - prev, 2)
  }

  /** `(k, j, i)` addresses a field cell of a volume shaped like `a`: the volume cell
      `(k + 1, j + 1, i + 1)` is interior. */
  predicate InField(a: array3<int>, k: int, j: int, i: int)
  {
    0 <= k && k + 2 < a.Length0 && 0 <= j && j + 2 < a.Length1 && 0 <= i && i + 2 < a.Length2
  }

  /** Component `c` (0 = x, 1 = y, 2 = z) of the gradient stored at field cell `[k, j, i]`. */
  function GradientAt(a: array3<int>, k: nat, j: nat, i: nat, c: nat): int
    requires InField(a, k, j, i) && c < 3
    reads a
  {
    if c == 0 then CentralDifference(a[k + 1, j + 1, i + 2], a[k + 1, j + 1, i])
    else if c == 1 then CentralDifference(a[k + 1, j + 2, i + 1], a[k + 1, j, i + 1])
    else CentralDifference(a[k + 2, j + 1, i + 1], a[k, j + 1, i + 1])
  }

  /** Exchanging the neighbours negates the component: truncation keeps the field odd,
      where a floor division would be off by one on odd negative differences. */
  lemma CentralDifferenceAntisymmetric(next: int, prev: int)
    ensures CentralDifference(prev, next) == -CentralDifference(next, prev)
  {
    TruncDivNegates(next - prev, 2);
  }

  /** Differences of two 8-bit intensities halve into [-127, 127]. */
  lemma CentralDifferenceOfBytes(next: int, prev: int)
    requires 0 <= next <= 255 && 0 <= prev <= 255
    ensures -127 <= CentralDifference(next, prev) <= 127
  {
  }

  /** On an 8-bit volume every gradient component lies in [-127, 127]. */
  lemma GradientOfBytesBounded(a: array3<int>)
    requires AllBytes(a)
    ensures forall k: nat, j: nat, i: nat, c: nat :: InField(a, k, j, i) && c < 3 ==> -127 <= GradientAt(a, k, j, i, c) <= 127
  {
    forall k: nat, j: nat, i: nat, c: nat | InField(a, k, j, i) && c < 3
      ensures -127 <= GradientAt(a, k, j, i, c) <= 127
    {
      assert InGrid(a, k + 1, j + 1, i + 2) && InGrid(a, k + 1, j + 1, i);
      assert InGrid(a, k + 1, j + 2, i + 1) && InGrid(a, k + 1, j, i + 1);
      assert InGrid(a, k + 2, j + 1, i + 1) && InGrid(a, k, j + 1, i + 1);
    }
  }

  /** A ramp along x (`a[k, j, i] == i`) has gradient (1, 0, 0) everywhere. */
  lemma GradientOfRamp(a: array3<int>)
    requires forall k, j, i :: InGrid(a, k, j, i) ==> a[k, j, i] == i
    ensures forall k: nat, j: nat, i: nat :: InField(a, k, j, i) ==>
      GradientAt(a, k, j, i, 0) == 1 && GradientAt(a, k, j, i, 1) == 0 && GradientAt(a, k, j, i, 2) == 0
  {
    forall k: nat, j: nat, i: nat | InField(a, k, j, i)
      ensures GradientAt(a, k, j, i, 0) == 1 && GradientAt(a, k, j, i, 1) == 0 && GradientAt(a, k, j, i, 2) == 0
    {
      assert InGrid(a, k + 1, j + 1, i + 2) && InGrid(a, k + 1, j + 1, i);
      assert InGrid(a, k + 1, j + 2, i + 1) && InGrid(a, k + 1, j, i + 1);
      assert InGrid(a, k + 2, j + 1, i + 1) && InGrid(a, k, j + 1, i + 1);
    }
  }

  /** A constant volume has zero gradient everywhere. */
  lemma GradientOfConstant(a: array3<int>, v: int)
    requires forall k, j, i :: InGrid(a, k, j, i) ==> a[k, j, i] == v
    ensures forall k: nat, j: nat, i: nat, c: nat :: InField(a, k, j, i) && c < 3 ==> GradientAt(a, k, j, i, c) == 0
  {
    forall k: nat, j: nat, i: nat, c: nat | InField(a, k, j, i) && c < 3
      ensures GradientAt(a, k, j, i, c) == 0
    {
      assert InGrid(a, k + 1, j + 1, i + 2) && InGrid(a, k + 1, j + 1, i);
      assert InGrid(a, k + 1, j + 2, i + 1) && InGrid(a, k + 1, j, i + 1);
      assert InGrid(a, k + 2, j + 1, i + 1) && InGrid(a, k, j + 1, i + 1);
    }
  }
}
