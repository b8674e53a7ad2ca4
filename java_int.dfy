/** Java's 8-bit byte and its integer division, which Dafny's built-in operators do not match. */
module JavaInt {

  /** A Java `byte`: a signed two's-complement 8-bit integer. */
  newtype JByte = x: int | -128 <= x < 128

  /** `b & 0xff` in Java: the byte is widened to `int` (sign-extended) and masked,
      which yields the unsigned reading of its 8-bit pattern. */
  function UnsignedByte(b: JByte): (u: int)
    ensures 0 <= u < 256
    ensures u % 256 == (b as int) % 256
  {
    if b < 0 then b as int + 256 else b as int
  }

  /** Java's `a / d` for a positive divisor: the quotient is truncated toward zero,
      whereas Dafny's `/` on `int` rounds toward negative infinity for negative `a`. */
  function TruncDiv(a: int, d: int): (q: int)
    requires d > 0
    ensures a >= 0 ==> q * d <= a < q * d + d
    ensures a < 0 ==> q * d - d < a <= q * d
  {
    if a >= 0 then a / d else -((-a) / d)
  }

  /** Truncating division is odd in its dividend, which Euclidean division is not. */
  lemma TruncDivNegates(a: int, d: int)
    requires d > 0
    ensures TruncDiv(-a, d) == -TruncDiv(a, d)
  {
  }

  /** Where the two divisions part: Java computes `-3 / 2 == -1`, Dafny `-3 / 2 == -2`. */
  lemma TruncDivOfMinusThree()
    ensures TruncDiv(-3, 2) == -1 && -3 / 2 == -2
  {
  }
}
