/**
 * The host's numeric primitives, over mathematical reals: `Math.abs`, `Math.min`
 * and what the engine relies on of `Math.sqrt`.
 */
module RealMath {

  function Abs(x: real): real
  {
    if x < 0.0 then -x else x
  }

  function Min(a: real, b: real): real
  {
    if a <= b then a else b
  }

  /**
   * `Math.sqrt` is supplied by the host. The engine takes it as a parameter, and
   * whatever depends on its meaning assumes it returns the non-negative square
   * root of every non-negative argument.
   */
  ghost predicate IsSqrt(sqrt: real -> real)
  {
    forall x: real :: 0.0 <= x ==> 0.0 <= sqrt(x) && sqrt(x) * sqrt(x) == x
  }

  // The facts about squares below name the square as a separate variable `s`:
  // the solver handles `s == a * a` with `s` kept apart more reliably than an
  // inequality about `a * a` itself.

  /** A product of two positive reals is positive. */
  lemma ProductPositive(a: real, b: real, s: real)
    requires s == a * b && 0.0 < a && 0.0 < b
    ensures 0.0 < s
  {
  }

  /** A product of two non-negative reals is non-negative. */
  lemma ProductNonNegative(a: real, b: real, s: real)
    requires s == a * b && 0.0 <= a && 0.0 <= b
    ensures 0.0 <= s
  {
  }

  /** No square is negative. */
  lemma SquareNonNegative(a: real, s: real)
    requires s == a * a
    ensures 0.0 <= s
  {
  }

  /** The square of a non-zero real is positive. */
  lemma SquarePositive(a: real, s: real)
    requires s == a * a && a != 0.0
    ensures 0.0 < s
  {
    assert s == Abs(a) * Abs(a);
    ProductPositive(Abs(a), Abs(a), s);
  }

  /** A sum of two squares is never negative, and is positive unless both terms are zero. */
  lemma SumOfSquares(a: real, b: real, s: real)
    requires s == a * a + b * b
    ensures 0.0 <= s
    ensures a != 0.0 || b != 0.0 ==> 0.0 < s
  {
    var aa, bb := a * a, b * b;
    SquareNonNegative(a, aa);
    SquareNonNegative(b, bb);
    if a != 0.0 {
      SquarePositive(a, aa);
    } else if b != 0.0 {
      SquarePositive(b, bb);
    }
  }

  /** Squaring is strictly increasing on the non-negative reals. */
  lemma SquareMonotonic(a: real, b: real)
    requires 0.0 <= a < b
    ensures a * a < b * b
  {
    var aa, ab, bb := a * a, a * b, b * b;
    assert aa <= ab;
    assert ab < bb;
  }

  /** Two non-negative reals with equal squares are equal. */
  lemma SquareInjective(a: real, b: real)
    requires 0.0 <= a && 0.0 <= b && a * a == b * b
    ensures a == b
  {
    if a < b {
      SquareMonotonic(a, b);
    } else if b < a {
      SquareMonotonic(b, a);
    }
  }

  /** A square root returns zero exactly on zero. */
  lemma SqrtZero(sqrt: real -> real, x: real)
    requires IsSqrt(sqrt) && 0.0 <= x
    ensures sqrt(x) == 0.0 <==> x == 0.0
  {
    var r := sqrt(x);
    assert r * r == x;
    if x == 0.0 {
      SquareInjective(r, 0.0);
    }
  }
}
