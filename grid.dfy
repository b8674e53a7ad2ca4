/** Predicates over the three-dimensional integer grids indexed `[z, y, x]`
    that the volume, its swapped copies and its acceleration structure are stored in. */
module Grid {

  /** `(z, y, x)` addresses a cell of `a`. */
  predicate InGrid(a: array3<int>, z: int, y: int, x: int)
  {
    0 <= z < a.Length0 && 0 <= y < a.Length1 && 0 <= x < a.Length2
  }

  /** Every sample is an unsigned 8-bit intensity. */
  ghost predicate AllBytes(a: array3<int>)
    reads a
  {
    forall z, y, x :: InGrid(a, z, y, x) ==> 0 <= a[z, y, x] <= 255
  }

  /** `a` and `b` have the same shape and the same contents. */
  ghost predicate SameGrid(a: array3<int>, b: array3<int>)
    reads a, b
  {
    && a.Length0 == b.Length0 && a.Length1 == b.Length1 && a.Length2 == b.Length2
    && forall z, y, x :: InGrid(a, z, y, x) ==> a[z, y, x] == b[z, y, x]
  }

  /** `(z, y, x)` strictly precedes `(k, j, i)` in the order in which three nested
      loops over z (outer), y and x (inner) visit cells. */
  predicate LexBefore(z: int, y: int, x: int, k: int, j: int, i: int)
  {
    z < k || (z == k && (y < j || (y == j && x < i)))
  }

  /** Multiplying by the same natural number keeps the order of the factors; the block
      and stride arithmetic is nonlinear, so the solver is handed this step explicitly. */
  lemma MulMonotone(a: nat, b: nat, n: nat)
    requires a <= b
    ensures a * n <= b * n
  {
  }
}
