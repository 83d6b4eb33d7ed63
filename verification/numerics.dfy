/** The parts of C#'s 32-bit integer arithmetic that the service relies on. */
module Numerics {

  const MinInt32: int := -0x8000_0000
  const MaxInt32: int := 0x7FFF_FFFF

  /** A C# `int`. */
  type int32 = x: int | MinInt32 <= x <= MaxInt32

  /** The value an unchecked C# `int` operation yields for the exact result `x`:
      `x` reduced modulo 2^32 into the signed range. */
  function Wrap32(x: int): (r: int32)
    ensures (r - x) % 0x1_0000_0000 == 0
    ensures MinInt32 <= x <= MaxInt32 ==> r == x
  {
    var m := x % 0x1_0000_0000;
    if m <= MaxInt32 then m else m - 0x1_0000_0000
  }

  /** C#'s `a % 10` on `int`: the remainder of division truncated toward zero,
      so it takes the sign of the dividend (Dafny's own `%` is Euclidean). */
  function Rem10(a: int): (r: int)
    ensures a >= 0 ==> 0 <= r < 10
    ensures a <= 0 ==> -10 < r <= 0
    ensures (a - r) % 10 == 0
  {
    if a >= 0 then a % 10 else -((-a) % 10)
  }

  /** The truncated remainder is the only one that differs from the dividend
      by a multiple of 10 and keeps the dividend's sign. */
  lemma Rem10Unique(a: int, r: int)
    requires (a - r) % 10 == 0
    requires a >= 0 ==> 0 <= r < 10
    requires a <= 0 ==> -10 < r <= 0
    ensures r == Rem10(a)
  {
    var d := r - Rem10(a);
    assert d % 10 == 0;
    assert -10 < d < 10;
  }

  /** Truncation is symmetric: negating the dividend negates the remainder,
      unlike Dafny's Euclidean `%`. */
  lemma Rem10Negate(a: int)
    ensures Rem10(-a) == -Rem10(a)
  {
  }
}
