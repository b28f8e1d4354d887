/**
 * What happens at an impact (index.js:236-288): a wall reverses the velocity
 * component across it; two balls are pushed apart when they overlap and
 * exchange an impulse along the collision normal.
 */
module Response {
  import opened RealMath
  import opened Vectors

  // ---------------------------------------------------------------- walls

  /** Wall bounce (index.js:242-247): each velocity component whose normal entry is non-zero is negated. */
  function Reflect(v: Vector, normal: Vector): Vector
  {
    Vector(if normal.x != 0.0 then -v.x else v.x, if normal.y != 0.0 then -v.y else v.y)
  }

  /** The four wall normals the prediction produces. */
  predicate IsWallNormal(n: Vector)
  {
    n == Vector(1.0, 0.0) || n == Vector(-1.0, 0.0) || n == Vector(0.0, 1.0) || n == Vector(0.0, -1.0)
  }

  /** Reflecting twice restores the velocity, and reflection keeps the speed. */
  lemma ReflectInvolution(v: Vector, normal: Vector)
    ensures Reflect(Reflect(v, normal), normal) == v
    ensures Reflect(v, normal).LengthSquared() == v.LengthSquared()
  {
  }

  /**
   * Against a wall normal the bounce reverses the velocity component along the
   * normal and keeps the component along the wall; a ball that was moving into
   * the wall moves away from it afterwards.
   */
  lemma ReflectAcrossWall(v: Vector, normal: Vector)
    requires IsWallNormal(normal)
    ensures Reflect(v, normal).Dot(normal) == -v.Dot(normal)
    ensures Reflect(v, normal).Dot(normal.Perpendicular()) == v.Dot(normal.Perpendicular())
    ensures v.Dot(normal) < 0.0 ==> 0.0 < Reflect(v, normal).Dot(normal)
  {
  }

  // ---------------------------------------------------------------- impulse

  /**
   * The scalar impulse of an exchange (index.js:278-280): `j = −(1 + e)·((v2 − v1)·n)`
   * shared in inverse proportion to the masses.
   */
  function ImpulseScalar(v1: Vector, v2: Vector, m1: real, m2: real, e: real, normal: Vector): real
    requires 0.0 < m1 && 0.0 < m2
  {
    var velAlongNormal := v2.Subtract(v1).Dot(normal);
    var j := -(1.0 + e) * velAlongNormal;
    j / (1.0 / m1 + 1.0 / m2)
  }

  /**
   * The impulse exchange between two balls (index.js:277-284): the impulse is
   * the normal scaled by the scalar impulse; the first ball loses impulse/m1
   * and the second gains impulse/m2.
   */
  function ImpulseExchange(v1: Vector, v2: Vector, m1: real, m2: real, e: real, normal: Vector): (Vector, Vector)
    requires 0.0 < m1 && 0.0 < m2
  {
    var impulse := normal.Scale(ImpulseScalar(v1, v2, m1, m2, e, normal));
    (v1.Subtract(impulse.Scale(1.0 / m1)), v2.Add(impulse.Scale(1.0 / m2)))
  }

  /** The scalar impulse times the summed inverse masses is `j`. */
  lemma ImpulseScalarSolves(v1: Vector, v2: Vector, m1: real, m2: real, e: real, normal: Vector)
    requires 0.0 < m1 && 0.0 < m2
    ensures ImpulseScalar(v1, v2, m1, m2, e, normal) * (1.0 / m1 + 1.0 / m2) == -(1.0 + e) * v2.Subtract(v1).Dot(normal)
  {
    var w := 1.0 / m1 + 1.0 / m2;
    assert 0.0 < w;
  }

  /** Each ball's new velocity is its old one moved along the normal by impulse/mass. */
  lemma ImpulseAlongNormal(v1: Vector, v2: Vector, m1: real, m2: real, e: real, normal: Vector)
    requires 0.0 < m1 && 0.0 < m2
    ensures var k := ImpulseScalar(v1, v2, m1, m2, e, normal);
            var r := ImpulseExchange(v1, v2, m1, m2, e, normal);
            && r.0 == v1.Subtract(normal.Scale(k * (1.0 / m1)))
            && r.1 == v2.Add(normal.Scale(k * (1.0 / m2)))
  {
    var k := ImpulseScalar(v1, v2, m1, m2, e, normal);
    ScaleProperties(normal, k, 1.0 / m1);
    ScaleProperties(normal, k, 1.0 / m2);
  }

  /** One component of the momentum balance: `m1·(a − I/m1) + m2·(b + I/m2) = m1·a + m2·b`. */
  lemma MomentumComponent(a: real, b: real, m1: real, m2: real, impulse: real)
    requires 0.0 < m1 && 0.0 < m2
    ensures m1 * (a - impulse * (1.0 / m1)) + m2 * (b + impulse * (1.0 / m2)) == m1 * a + m2 * b
  {
    assert m1 * (1.0 / m1) == 1.0;
    assert m2 * (1.0 / m2) == 1.0;
    assert m1 * (impulse * (1.0 / m1)) == impulse * (m1 * (1.0 / m1));
    assert m2 * (impulse * (1.0 / m2)) == impulse * (m2 * (1.0 / m2));
  }

  /** The exchange conserves total momentum, whatever the normal and the restitution. */
  lemma ImpulseConservesMomentum(v1: Vector, v2: Vector, m1: real, m2: real, e: real, normal: Vector)
    requires 0.0 < m1 && 0.0 < m2
    ensures var r := ImpulseExchange(v1, v2, m1, m2, e, normal);
            r.0.Scale(m1).Add(r.1.Scale(m2)) == v1.Scale(m1).Add(v2.Scale(m2))
  {
    var k := ImpulseScalar(v1, v2, m1, m2, e, normal);
    ImpulseAlongNormal(v1, v2, m1, m2, e, normal);
    MomentumComponent(v1.x, v2.x, m1, m2, normal.x * k);
    MomentumComponent(v1.y, v2.y, m1, m2, normal.y * k);
    assert normal.x * (k * (1.0 / m1)) == normal.x * k * (1.0 / m1);
    assert normal.y * (k * (1.0 / m1)) == normal.y * k * (1.0 / m1);
    assert normal.x * (k * (1.0 / m2)) == normal.x * k * (1.0 / m2);
    assert normal.y * (k * (1.0 / m2)) == normal.y * k * (1.0 / m2);
  }

  /** The exchange does not touch the velocity components perpendicular to the normal. */
  lemma ImpulseKeepsTangential(v1: Vector, v2: Vector, m1: real, m2: real, e: real, normal: Vector)
    requires 0.0 < m1 && 0.0 < m2
    ensures var r := ImpulseExchange(v1, v2, m1, m2, e, normal);
            var t := normal.Perpendicular();
            r.0.Dot(t) == v1.Dot(t) && r.1.Dot(t) == v2.Dot(t)
  {
    var k := ImpulseScalar(v1, v2, m1, m2, e, normal);
    ImpulseAlongNormal(v1, v2, m1, m2, e, normal);
    PerpendicularProperties(normal);
    var t := normal.Perpendicular();
    ScaledDotZero(normal, t, k * (1.0 / m1));
    ScaledDotZero(normal, t, k * (1.0 / m2));
  }

  /** A multiple of `n` is perpendicular to whatever `n` is perpendicular to, and dot products split over sums. */
  lemma ScaledDotZero(n: Vector, t: Vector, k: real)
    requires n.Dot(t) == 0.0
    ensures n.Scale(k).Dot(t) == 0.0
    ensures forall v: Vector :: v.Subtract(n.Scale(k)).Dot(t) == v.Dot(t)
    ensures forall v: Vector :: v.Add(n.Scale(k)).Dot(t) == v.Dot(t)
  {
    assert n.Scale(k).Dot(t) == k * n.Dot(t);
  }

  /**
   * For a unit normal the relative velocity along the normal after the exchange
   * is `−e` times what it was before: restitution law.
   */
  lemma ImpulseRestitution(v1: Vector, v2: Vector, m1: real, m2: real, e: real, normal: Vector)
    requires 0.0 < m1 && 0.0 < m2
    requires normal.LengthSquared() == 1.0
    ensures var r := ImpulseExchange(v1, v2, m1, m2, e, normal);
            r.1.Subtract(r.0).Dot(normal) == -e * v2.Subtract(v1).Dot(normal)
  {
    var r := ImpulseExchange(v1, v2, m1, m2, e, normal);
    var k := ImpulseScalar(v1, v2, m1, m2, e, normal);
    ImpulseAlongNormal(v1, v2, m1, m2, e, normal);
    var a, b := 1.0 / m1, 1.0 / m2;
    var w := a + b;
    ImpulseScalarSolves(v1, v2, m1, m2, e, normal);
    var moved := normal.Scale(k * w);
    assert r.1.Subtract(r.0) == v2.Subtract(v1).Add(moved) by {
      assert normal.x * (k * b) + normal.x * (k * a) == normal.x * (k * w);
      assert normal.y * (k * b) + normal.y * (k * a) == normal.y * (k * w);
    }
    DotProperties(v2.Subtract(v1), moved, normal);
    assert moved.Dot(normal) == (k * w) * normal.LengthSquared();
  }

  /**
   * For a perfectly elastic exchange (`e = 1`) along a unit normal, the total
   * kinetic energy `m1·|v1|² + m2·|v2|²` (halved) is unchanged.
   */
  lemma ImpulseConservesEnergyWhenElastic(v1: Vector, v2: Vector, m1: real, m2: real, normal: Vector)
    requires 0.0 < m1 && 0.0 < m2
    requires normal.LengthSquared() == 1.0
    ensures var r := ImpulseExchange(v1, v2, m1, m2, 1.0, normal);
            m1 * r.0.LengthSquared() + m2 * r.1.LengthSquared() == m1 * v1.LengthSquared() + m2 * v2.LengthSquared()
  {
    var k := ImpulseScalar(v1, v2, m1, m2, 1.0, normal);
    ElasticCondition(v1, v2, m1, m2, normal);
    ImpulseAlongNormal(v1, v2, m1, m2, 1.0, normal);
    SubtractAsAdd(v1, normal, k * (1.0 / m1));
    ElasticShift(v1, v2, m1, m2, normal, k);
  }

  /** With `e = 1` the scalar impulse times the summed inverse masses is `−2·(v2·n − v1·n)`. */
  lemma ElasticCondition(v1: Vector, v2: Vector, m1: real, m2: real, normal: Vector)
    requires 0.0 < m1 && 0.0 < m2
    ensures ImpulseScalar(v1, v2, m1, m2, 1.0, normal) * (1.0 / m1 + 1.0 / m2) == -2.0 * (v2.Dot(normal) - v1.Dot(normal))
  {
    ImpulseScalarSolves(v1, v2, m1, m2, 1.0, normal);
    assert v2.Subtract(v1).Dot(normal) == v2.Dot(normal) - v1.Dot(normal);
  }

  /** Moving back along `n` by `c` is moving forward by `−c`. */
  lemma SubtractAsAdd(v: Vector, n: Vector, c: real)
    ensures v.Subtract(n.Scale(c)) == v.Add(n.Scale(-c))
  {
    assert n.x * -c == -(n.x * c);
    assert n.y * -c == -(n.y * c);
  }

  /** Energy balance of opposite shifts along a unit normal whose size meets the elastic condition. */
  lemma ElasticShift(v1: Vector, v2: Vector, m1: real, m2: real, normal: Vector, k: real)
    requires 0.0 < m1 && 0.0 < m2
    requires normal.LengthSquared() == 1.0
    requires k * (1.0 / m1 + 1.0 / m2) == -2.0 * (v2.Dot(normal) - v1.Dot(normal))
    ensures m1 * v1.Add(normal.Scale(-(k * (1.0 / m1)))).LengthSquared() + m2 * v2.Add(normal.Scale(k * (1.0 / m2))).LengthSquared()
            == m1 * v1.LengthSquared() + m2 * v2.LengthSquared()
  {
    var a, b := 1.0 / m1, 1.0 / m2;
    var x1, x2 := v1.Dot(normal), v2.Dot(normal);
    ShiftLengthSquared(v1, normal, -(k * a));
    ShiftLengthSquared(v2, normal, k * b);
    ElasticBalance(m1, m2, a, b, k, x1, x2);
    WeightedSum(m1, m2, v1.LengthSquared(), v2.LengthSquared(),
                2.0 * -(k * a) * x1 + -(k * a) * -(k * a), 2.0 * (k * b) * x2 + (k * b) * (k * b));
  }

  /** Weighted increments that cancel leave a weighted sum unchanged. */
  lemma WeightedSum(m1: real, m2: real, s1: real, s2: real, d1: real, d2: real)
    requires m1 * d1 + m2 * d2 == 0.0
    ensures m1 * (s1 + d1) + m2 * (s2 + d2) == m1 * s1 + m2 * s2
  {
  }

  /** `|v + n·c|² = |v|² + 2c·(v·n) + c²` for a unit `n`. */
  lemma ShiftLengthSquared(v: Vector, n: Vector, c: real)
    requires n.LengthSquared() == 1.0
    ensures v.Add(n.Scale(c)).LengthSquared() == v.LengthSquared() + 2.0 * c * v.Dot(n) + c * c
  {
    var nn := n.x * n.x + n.y * n.y;
    assert (v.x + n.x * c) * (v.x + n.x * c) == v.x * v.x + 2.0 * c * (v.x * n.x) + c * c * (n.x * n.x);
    assert (v.y + n.y * c) * (v.y + n.y * c) == v.y * v.y + 2.0 * c * (v.y * n.y) + c * c * (n.y * n.y);
    assert c * c * (n.x * n.x) + c * c * (n.y * n.y) == c * c * nn;
  }

  /** The energy bookkeeping of an elastic exchange, in scalars. */
  lemma ElasticBalance(m1: real, m2: real, a: real, b: real, k: real, x1: real, x2: real)
    requires m1 * a == 1.0 && m2 * b == 1.0
    requires k * (a + b) == -2.0 * (x2 - x1)
    ensures m1 * (2.0 * -(k * a) * x1 + -(k * a) * -(k * a)) + m2 * (2.0 * (k * b) * x2 + (k * b) * (k * b)) == 0.0
  {
    assert m1 * (2.0 * -(k * a) * x1) == -2.0 * k * x1 * (m1 * a);
    assert m1 * (-(k * a) * -(k * a)) == k * k * a * (m1 * a);
    assert m2 * (2.0 * (k * b) * x2) == 2.0 * k * x2 * (m2 * b);
    assert m2 * ((k * b) * (k * b)) == k * k * b * (m2 * b);
    assert k * k * (a + b) == k * (-2.0 * (x2 - x1));
  }

  // ---------------------------------------------------------------- push apart

  /** Overlap below this depth is tolerated (index.js:267). */
  const OverlapThreshold: real := 0.0001

  /**
   * Overlap correction (index.js:263-274): when the centres are closer than the
   * sum of the radii by more than the threshold, each ball moves half the
   * overlap along the normal, the first backwards and the second forwards.
   */
  function PushApart(p1: Vector, p2: Vector, r1: real, r2: real, normal: Vector, sqrt: real -> real): (Vector, Vector)
  {
    var distance := p1.DistanceTo(p2, sqrt);
    var minDistance := r1 + r2;
    if distance < minDistance - OverlapThreshold then
      var overlap := minDistance - distance;
      var separation := normal.Scale(overlap / 2.0);
      (p1.Subtract(separation), p2.Add(separation))
    else
      (p1, p2)
  }

  /**
   * The correction moves both balls by opposite amounts, so their midpoint
   * stays put, and it moves nothing when the overlap is within the threshold.
   */
  lemma PushApartKeepsMidpoint(p1: Vector, p2: Vector, r1: real, r2: real, normal: Vector, sqrt: real -> real)
    ensures var r := PushApart(p1, p2, r1, r2, normal, sqrt);
            && r.0.Add(r.1) == p1.Add(p2)
            && (r1 + r2 - OverlapThreshold <= p1.DistanceTo(p2, sqrt) ==> r.0 == p1 && r.1 == p2)
  {
  }

  /**
   * When the normal is the unit vector from the first centre to the second,
   * a correction leaves the balls exactly touching.
   */
  lemma PushApartRestoresContact(p1: Vector, p2: Vector, r1: real, r2: real, sqrt: real -> real)
    requires IsSqrt(sqrt)
    requires p1 != p2
    requires p1.DistanceTo(p2, sqrt) < r1 + r2 - OverlapThreshold
    ensures var r := PushApart(p1, p2, r1, r2, p2.Subtract(p1).Normalize(sqrt), sqrt);
            r.1.Subtract(r.0).LengthSquared() == (r1 + r2) * (r1 + r2)
  {
    var d := p2.Subtract(p1);
    var len := d.Length(sqrt);
    assert 0.0 < len && d.LengthSquared() == len * len by {
      DistanceProperties(p1, p2, sqrt);
      assert d != Zero by {
        assert p2 == p1.Add(d);
      }
      LengthIsRoot(d, sqrt);
    }
    assert p1.DistanceTo(p2, sqrt) == len by {
      DistanceProperties(p1, p2, sqrt);
    }
    var reach := r1 + r2;
    var separation := d.Scale(1.0 / len).Scale((reach - len) / 2.0);
    var r := PushApart(p1, p2, r1, r2, d.Normalize(sqrt), sqrt);
    assert r.0 == p1.Subtract(separation) && r.1 == p2.Add(separation);
    PushedGap(p1, p2, len, reach);
    ScaleProperties(d, reach / len, 1.0);
    RatioSquare(reach, len, d.LengthSquared());
  }

  /** After moving both ends by half the overlap along the unit direction, the gap is `d·(R/L)`. */
  lemma PushedGap(p1: Vector, p2: Vector, len: real, reach: real)
    requires 0.0 < len
    ensures var d := p2.Subtract(p1);
            var separation := d.Scale(1.0 / len).Scale((reach - len) / 2.0);
            p2.Add(separation).Subtract(p1.Subtract(separation)) == d.Scale(reach / len)
  {
    var d := p2.Subtract(p1);
    var k := 1.0 / len;
    assert k * reach == reach / len;
    ContactComponent(d.x, k, len, reach);
    ContactComponent(d.y, k, len, reach);
  }

  /** `(R/L)²·L² = R²`. */
  lemma RatioSquare(reach: real, len: real, square: real)
    requires 0.0 < len && square == len * len
    ensures (reach / len) * (reach / len) * square == reach * reach
  {
    var c := reach / len;
    assert c * len == reach;
    assert c * c * (len * len) == (c * len) * (c * len);
  }

  /** One component of the pushed gap: `d + 2·(d·k)·(R − L)/2 = d·(k·R)` when `k·L = 1`. */
  lemma ContactComponent(d: real, k: real, len: real, reach: real)
    requires 0.0 < len && k == 1.0 / len
    ensures d + 2.0 * (d * k * ((reach - len) / 2.0)) == d * (k * reach)
  {
    assert k * len == 1.0;
    assert d * k * (reach - len) == d * (k * reach) - d * (k * len);
  }
}
