/** The index permutations by which the volume is rebuilt so that the x or the y axis
    becomes the depth (z) axis the renderers march along. */
module AxisSwap {
  import opened Grid

  /** `b` is `a` with the outer (z) and inner (x) indices exchanged. */
  ghost predicate IsSwapXZ(a: array3<int>, b: array3<int>)
    reads a, b
  {
    && b.Length0 == a.Length2 && b.Length1 == a.Length1 && b.Length2 == a.Length0
    && forall k, j, i :: InGrid(a, k, j, i) ==> b[i, j, k] == a[k, j, i]
  }

  /** `b` is `a` with the outer (z) and middle (y) indices exchanged. */
  ghost predicate IsSwapYZ(a: array3<int>, b: array3<int>)
    reads a, b
  {
    && b.Length0 == a.Length1 && b.Length1 == a.Length0 && b.Length2 == a.Length2
    && forall k, j, i :: InGrid(a, k, j, i) ==> b[j, k, i] == a[k, j, i]
  }

  /** Exchanging z and x is its own inverse: read backwards, a swap is a swap. */
  lemma SwapXZSymmetric(a: array3<int>, b: array3<int>)
    requires IsSwapXZ(a, b)
    ensures IsSwapXZ(b, a)
  {
    forall i, j, k | InGrid(b, i, j, k) ensures a[k, j, i] == b[i, j, k] {
      assert InGrid(a, k, j, i);
    }
  }

  /** Exchanging z and y is its own inverse. */
  lemma SwapYZSymmetric(a: array3<int>, b: array3<int>)
    requires IsSwapYZ(a, b)
    ensures IsSwapYZ(b, a)
  {
    forall j, k, i | InGrid(b, j, k, i) ensures a[k, j, i] == b[j, k, i] {
      assert InGrid(a, k, j, i);
    }
  }

  /** Swapping z and x twice restores the original shape and every sample. */
  lemma SwapXZTwice(a: array3<int>, b: array3<int>, c: array3<int>)
    requires IsSwapXZ(a, b) && IsSwapXZ(b, c)
    ensures SameGrid(a, c)
  {
    SwapXZSymmetric(a, b);
  }

  /** Swapping z and y twice restores the original shape and every sample. */
  lemma SwapYZTwice(a: array3<int>, b: array3<int>, c: array3<int>)
    requires IsSwapYZ(a, b) && IsSwapYZ(b, c)
    ensures SameGrid(a, c)
  {
    SwapYZSymmetric(a, b);
  }

  /** A swap only moves samples, so intensities stay in [0, 255]. */
  lemma SwapXZKeepsBytes(a: array3<int>, b: array3<int>)
    requires IsSwapXZ(a, b) && AllBytes(a)
    ensures AllBytes(b)
  {
    SwapXZSymmetric(a, b);
  }

  lemma SwapYZKeepsBytes(a: array3<int>, b: array3<int>)
    requires IsSwapYZ(a, b) && AllBytes(a)
    ensures AllBytes(b)
  {
    SwapYZSymmetric(a, b);
  }
}
