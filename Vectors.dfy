/**
 * Two-dimensional vectors (index.js:1-55). A vector is a value: every operation
 * builds a new vector and none changes its operands.
 */
module Vectors {
  import opened RealMath

  datatype Vector = Vector(x: real, y: real)
  {
    function Add(other: Vector): Vector
    {
      Vector(x + other.x, y + other.y)
    }

    function Subtract(other: Vector): Vector
    {
      Vector(x - other.x, y - other.y)
    }

    function Scale(scalar: real): Vector
    {
      Vector(x * scalar, y * scalar)
    }

    function Dot(other: Vector): real
    {
      x * other.x + y * other.y
    }

    function Length(sqrt: real -> real): real
    {
      sqrt(x * x + y * y)
    }

    function LengthSquared(): real
    {
      x * x + y * y
    }

    /** The unit vector along this one; the zero vector when the length is zero. */
    function Normalize(sqrt: real -> real): (r: Vector)
      ensures Length(sqrt) == 0.0 ==> r == Zero
      ensures this == Zero ==> r == Zero
    {
      var len := Length(sqrt);
      if len == 0.0 then Vector(0.0, 0.0) else Scale(1.0 / len)
    }

    function DistanceTo(other: Vector, sqrt: real -> real): real
    {
      Subtract(other).Length(sqrt)
    }

    function DistanceToSquared(other: Vector): real
    {
      var dx := x - other.x;
      var dy := y - other.y;
      dx * dx + dy * dy
    }

    /** A copy: the same value. */
    function Clone(): (r: Vector)
      ensures r == this
    {
      Vector(x, y)
    }

    /** This vector turned a quarter turn clockwise on a y-down screen. */
    function Perpendicular(): Vector
    {
      Vector(y, -x)
    }
  }

  const Zero := Vector(0.0, 0.0)

  /**
   * Scaling by one changes nothing, scaling by zero gives the zero vector,
   * two scalings compose by multiplying the factors, and the squared length
   * scales by the square of the factor.
   */
  lemma ScaleProperties(v: Vector, a: real, b: real)
    ensures v.Scale(1.0) == v
    ensures v.Scale(0.0) == Zero
    ensures v.Scale(a).Scale(b) == v.Scale(a * b)
    ensures v.Scale(a).LengthSquared() == (a * a) * v.LengthSquared()
  {
    assert v.x * a * b == v.x * (a * b);
    assert v.y * a * b == v.y * (a * b);
    assert (v.x * a) * (v.x * a) == (a * a) * (v.x * v.x);
    assert (v.y * a) * (v.y * a) == (a * a) * (v.y * v.y);
  }

  /**
   * The dot product is symmetric, gives the squared length on a vector and
   * itself, distributes over a sum, and is zero against the zero vector.
   */
  lemma DotProperties(u: Vector, v: Vector, w: Vector)
    ensures u.Dot(v) == v.Dot(u)
    ensures u.Dot(u) == u.LengthSquared()
    ensures u.Add(v).Dot(w) == u.Dot(w) + v.Dot(w)
    ensures u.Dot(Zero) == 0.0
  {
  }

  /** Subtracting undoes adding, and a clone is the same value. */
  lemma AddSubtractInverse(v: Vector, w: Vector)
    ensures v.Add(w).Subtract(w) == v
    ensures v.Subtract(w).Add(w) == v
    ensures v.Clone() == v
  {
  }

  /** A squared length is never negative, and is zero only for the zero vector. */
  lemma LengthSquaredPositive(v: Vector)
    ensures 0.0 <= v.LengthSquared()
    ensures v != Zero ==> 0.0 < v.LengthSquared()
  {
    var x, y := v.x, v.y;
    SumOfSquares(x, y, v.LengthSquared());
    if v != Zero {
      assert v == Vector(x, y);
    }
  }

  /** Only the zero vector has zero squared length. */
  lemma LengthSquaredZero(v: Vector)
    ensures v.LengthSquared() == 0.0 <==> v == Zero
  {
    LengthSquaredPositive(v);
  }

  /** `length` is the square root of `lengthSquared`, and zero only for the zero vector. */
  lemma LengthIsRoot(v: Vector, sqrt: real -> real)
    requires IsSqrt(sqrt)
    ensures 0.0 <= v.Length(sqrt)
    ensures v.Length(sqrt) * v.Length(sqrt) == v.LengthSquared()
    ensures v.Length(sqrt) == 0.0 <==> v == Zero
  {
    LengthSquaredPositive(v);
    SqrtZero(sqrt, v.LengthSquared());
  }

  /**
   * `normalize` of a non-zero vector has length one and points the same way:
   * it makes a positive dot product with the original and is parallel to it.
   */
  lemma NormalizeUnit(v: Vector, sqrt: real -> real)
    requires IsSqrt(sqrt) && v != Zero
    ensures v.Normalize(sqrt).LengthSquared() == 1.0
    ensures v.Normalize(sqrt).Dot(v) > 0.0
    ensures v.Normalize(sqrt).Perpendicular().Dot(v) == 0.0
  {
    LengthIsRoot(v, sqrt);
    var len := v.Length(sqrt);
    var k := 1.0 / len;
    var n := v.Normalize(sqrt);
    assert n == Vector(v.x * k, v.y * k);
    var sq := v.x * v.x + v.y * v.y;
    assert sq == len * len;
    assert k * len == 1.0;
    calc {
      n.LengthSquared();
      (v.x * k) * (v.x * k) + (v.y * k) * (v.y * k);
      (k * k) * sq;
      (k * k) * (len * len);
      (k * len) * (k * len);
      1.0;
    }
    calc {
      n.Dot(v);
      (v.x * k) * v.x + (v.y * k) * v.y;
      k * sq;
      k * (len * len);
      (k * len) * len;
      len;
    }
  }

  /**
   * `perpendicular` is orthogonal to the original, keeps its length, and turning
   * twice gives the opposite vector.
   */
  lemma PerpendicularProperties(v: Vector)
    ensures v.Perpendicular().Dot(v) == 0.0
    ensures v.Perpendicular().LengthSquared() == v.LengthSquared()
    ensures v.Perpendicular().Perpendicular() == v.Scale(-1.0)
  {
  }

  /** The distance between two points is symmetric and is the length of their difference. */
  lemma DistanceProperties(v: Vector, w: Vector, sqrt: real -> real)
    requires IsSqrt(sqrt)
    ensures v.DistanceToSquared(w) == w.DistanceToSquared(v) == v.Subtract(w).LengthSquared()
    ensures v.DistanceTo(w, sqrt) == w.DistanceTo(v, sqrt)
    ensures 0.0 <= v.DistanceTo(w, sqrt)
    ensures v.DistanceTo(w, sqrt) * v.DistanceTo(w, sqrt) == v.DistanceToSquared(w)
  {
    LengthIsRoot(v.Subtract(w), sqrt);
    assert v.Subtract(w).LengthSquared() == w.Subtract(v).LengthSquared();
  }
}
