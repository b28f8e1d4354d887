/**
 * Time-of-impact prediction (index.js:142-234): when a ball next reaches a wall
 * it is moving toward, and when two balls moving at constant velocity first touch.
 */
module Collisions {
  import opened Wrappers
  import opened RealMath
  import opened Vectors
  import opened Balls

  /**
   * An upcoming impact, `time` after the start of the current sub-step. Balls
   * are named by their index in the engine's list.
   */
  datatype Collision =
    | WallHit(time: real, ball: nat, normal: Vector)
    | BallHit(time: real, ball1: nat, ball2: nat, normal: Vector)

  // ---------------------------------------------------------------- walls

  /**
   * At time `t` a ball at coordinate `p` moving at `v` along one axis has its
   * leading edge on the wall it is moving toward: the low wall at 0 when `v < 0`,
   * the high wall at `bound` when `v > 0`.
   */
  ghost predicate Reaches(p: real, v: real, radius: real, bound: real, t: real)
  {
    (v < 0.0 && p + v * t == radius) || (0.0 < v && p + v * t == bound - radius)
  }

  /** The linear solve on one axis (index.js:149-163 for X, 165-179 for Y). */
  function AxisHit(p: real, v: real, radius: real, bound: real): Option<real>
  {
    if v < 0.0 then
      var t := (radius - p) / v;
      if t >= 0.0 then Some(t) else None
    else if v > 0.0 then
      var t := (bound - radius - p) / v;
      if t >= 0.0 then Some(t) else None
    else
      None
  }

  /** Dividing by a non-zero real solves the linear equation it stands for. */
  lemma DivisionSolves(a: real, v: real, t: real)
    requires v != 0.0
    ensures v * t == a <==> t == a / v
  {
    var q := a / v;
    assert v * q == a;
    if v * t == a {
      assert v * t == v * q;
      assert v * (t - q) == 0.0;
    }
  }

  /**
   * The axis solve returns exactly the non-negative times at which the ball
   * reaches the wall it is moving toward: what it returns is such a time, and
   * any such time is what it returns (so there is at most one).
   */
  lemma AxisHitExact(p: real, v: real, radius: real, bound: real)
    ensures AxisHit(p, v, radius, bound).Some? ==>
              var t := AxisHit(p, v, radius, bound).value;
              0.0 <= t && Reaches(p, v, radius, bound, t)
    ensures forall t :: 0.0 <= t && Reaches(p, v, radius, bound, t) ==>
              AxisHit(p, v, radius, bound) == Some(t)
  {
    if v < 0.0 {
      var t0 := (radius - p) / v;
      DivisionSolves(radius - p, v, t0);
      forall t | 0.0 <= t && Reaches(p, v, radius, bound, t)
        ensures AxisHit(p, v, radius, bound) == Some(t)
      {
        DivisionSolves(radius - p, v, t);
      }
    } else if v > 0.0 {
      var t0 := (bound - radius - p) / v;
      DivisionSolves(bound - radius - p, v, t0);
      forall t | 0.0 <= t && Reaches(p, v, radius, bound, t)
        ensures AxisHit(p, v, radius, bound) == Some(t)
      {
        DivisionSolves(bound - radius - p, v, t);
      }
    }
  }

  /**
   * The earliest wall the ball will reach (index.js:142-189). The Y wall replaces
   * the X wall only when strictly earlier, so on a tie the X wall is reported.
   */
  function PredictWallCollision(ball: Ball, index: nat, width: real, height: real): (r: Option<Collision>)
    reads ball
    ensures r.Some? ==> r.value.WallHit? && r.value.ball == index && 0.0 <= r.value.time
    ensures r.Some? ==>
              var n, v := r.value.normal, ball.velocity;
              || (n == Vector(1.0, 0.0) && v.x < 0.0)
              || (n == Vector(-1.0, 0.0) && 0.0 < v.x)
              || (n == Vector(0.0, 1.0) && v.y < 0.0)
              || (n == Vector(0.0, -1.0) && 0.0 < v.y)
  {
    var pos, vel := ball.position, ball.velocity;
    var xHit := AxisHit(pos.x, vel.x, ball.radius, width);
    var yHit := AxisHit(pos.y, vel.y, ball.radius, height);
    if yHit.Some? && (xHit.None? || yHit.value < xHit.value) then
      Some(WallHit(yHit.value, index, if vel.y < 0.0 then Vector(0.0, 1.0) else Vector(0.0, -1.0)))
    else if xHit.Some? then
      Some(WallHit(xHit.value, index, if vel.x < 0.0 then Vector(1.0, 0.0) else Vector(-1.0, 0.0)))
    else
      None
  }

  /**
   * The wall prediction is exact and earliest: it reports nothing exactly when
   * neither axis reaches its wall at any time from now on; otherwise the
   * reported wall is reached at the reported time, no wall is reached sooner,
   * and when both axes reach their walls at that same time the X wall is the
   * one reported.
   */
  lemma PredictWallCollisionEarliest(ball: Ball, index: nat, width: real, height: real)
    ensures var r := PredictWallCollision(ball, index, width, height);
            var p, v, radius := ball.position, ball.velocity, ball.radius;
            && (r.None? <==> forall t :: 0.0 <= t ==>
                  !Reaches(p.x, v.x, radius, width, t) && !Reaches(p.y, v.y, radius, height, t))
            && (r.Some? && r.value.normal.y == 0.0 ==> Reaches(p.x, v.x, radius, width, r.value.time))
            && (r.Some? && r.value.normal.x == 0.0 ==> Reaches(p.y, v.y, radius, height, r.value.time))
            && (r.Some? ==> forall t ::
                  (0.0 <= t && (Reaches(p.x, v.x, radius, width, t) || Reaches(p.y, v.y, radius, height, t)))
                  ==> r.value.time <= t)
            && (r.Some? && Reaches(p.x, v.x, radius, width, r.value.time) ==> r.value.normal.y == 0.0)
  {
    var p, v, radius := ball.position, ball.velocity, ball.radius;
    AxisHitExact(p.x, v.x, radius, width);
    AxisHitExact(p.y, v.y, radius, height);
  }

  // ---------------------------------------------------------------- pairs of balls

  /** The quadratic `a·s² + b·s + c`. */
  function Quad(a: real, b: real, c: real, s: real): real
  {
    a * s * s + b * s + c
  }

  /** Completing the square: `4a·Q(s) = (2as + b)² − (b² − 4ac)`. */
  lemma CompletedSquare(a: real, b: real, c: real, s: real)
    ensures 4.0 * a * Quad(a, b, c, s) == (2.0 * a * s + b) * (2.0 * a * s + b) - (b * b - 4.0 * a * c)
  {
    var u := 2.0 * a * s + b;
    assert u * u == 4.0 * a * a * s * s + 4.0 * a * b * s + b * b;
  }

  /** Multiplying by a positive factor keeps the sign. */
  lemma PositiveMultiple(k: real, x: real, p: real)
    requires 0.0 < k && p == k * x
    ensures 0.0 < p <==> 0.0 < x
    ensures p == 0.0 <==> x == 0.0
  {
    if 0.0 < x {
      ProductPositive(k, x, p);
    } else if x < 0.0 {
      var m := -p;
      assert m == k * -x;
      ProductPositive(k, -x, m);
    }
  }

  /**
   * With `a > 0` and a non-negative discriminant whose root is `q`, the smaller
   * root `t = (−b − q)/(2a)` is a zero of the quadratic, the quadratic is
   * positive everywhere before it, and, when `c > 0` and `t` is negative, it is
   * positive at every `s ≥ 0`.
   */
  lemma QuadraticFirstRoot(a: real, b: real, c: real, q: real, t: real)
    requires 0.0 < a && 0.0 <= q && q * q == b * b - 4.0 * a * c
    requires t == (-b - q) / (2.0 * a)
    ensures Quad(a, b, c, t) == 0.0
    ensures forall s :: s < t ==> 0.0 < Quad(a, b, c, s)
    ensures 0.0 < c && t < 0.0 ==> forall s :: 0.0 <= s ==> 0.0 < Quad(a, b, c, s)
  {
    var a2, a4 := 2.0 * a, 4.0 * a;
    var d := b * b - 4.0 * a * c;
    DivisionSolves(-b - q, a2, t);
    var at := a2 * t;
    assert at + b == -q;
    CompletedSquare(a, b, c, t);
    PositiveMultiple(a4, Quad(a, b, c, t), a4 * Quad(a, b, c, t));
    forall s | s < t
      ensures 0.0 < Quad(a, b, c, s)
    {
      var gap := a2 * (t - s);
      ProductPositive(a2, t - s, gap);
      var u := a2 * s + b;
      assert u < -q;
      SquareMonotonic(q, -u);
      assert (-u) * (-u) == u * u;
      CompletedSquare(a, b, c, s);
      PositiveMultiple(a4, Quad(a, b, c, s), a4 * Quad(a, b, c, s));
    }
    if 0.0 < c && t < 0.0 {
      PositiveMultiple(a2, t, at);
      assert -q < b;
      var ac := a4 * c;
      ProductPositive(a4, c, ac);
      assert q * q < b * b;
      if b <= q {
        if 0.0 <= b && b < q {
          SquareMonotonic(b, q);
        }
        assert false;
      }
      forall s | 0.0 <= s
        ensures 0.0 < Quad(a, b, c, s)
      {
        var as2 := a2 * s;
        ProductNonNegative(a2, s, as2);
        var u := as2 + b;
        SquareMonotonic(q, u);
        CompletedSquare(a, b, c, s);
        PositiveMultiple(a4, Quad(a, b, c, s), a4 * Quad(a, b, c, s));
      }
    }
  }

  /** A quadratic with `a > 0` and a negative discriminant is positive everywhere. */
  lemma QuadraticNoRoot(a: real, b: real, c: real)
    requires 0.0 < a && b * b - 4.0 * a * c < 0.0
    ensures forall s :: 0.0 < Quad(a, b, c, s)
  {
    forall s
      ensures 0.0 < Quad(a, b, c, s)
    {
      var u := 2.0 * a * s + b;
      SquareNonNegative(u, u * u);
      CompletedSquare(a, b, c, s);
      PositiveMultiple(4.0 * a, Quad(a, b, c, s), 4.0 * a * Quad(a, b, c, s));
    }
  }

  /**
   * The earlier root of `a·s² + b·s + c` if the discriminant is not negative
   * and that root is not in the past (index.js:218-222).
   */
  function SmallerRoot(a: real, b: real, c: real, sqrt: real -> real): (r: Option<real>)
    requires a != 0.0
    ensures r.Some? ==> 0.0 <= r.value
  {
    var discriminant := b * b - 4.0 * a * c;
    if discriminant < 0.0 then None
    else
      var t := (-b - sqrt(discriminant)) / (2.0 * a);
      if t < 0.0 then None else Some(t)
  }

  /**
   * For an upward parabola positive at 0, the root reported is where it first
   * reaches zero, and when none is reported it stays positive from 0 onward.
   */
  lemma SmallerRootFirstZero(a: real, b: real, c: real, sqrt: real -> real)
    requires IsSqrt(sqrt)
    requires 0.0 < a && 0.0 < c
    ensures var r := SmallerRoot(a, b, c, sqrt);
            && (r.Some? ==> Quad(a, b, c, r.value) == 0.0)
            && (r.Some? ==> forall s :: s < r.value ==> 0.0 < Quad(a, b, c, s))
            && (r.None? ==> forall s :: 0.0 <= s ==> 0.0 < Quad(a, b, c, s))
  {
    var d := b * b - 4.0 * a * c;
    if d < 0.0 {
      QuadraticNoRoot(a, b, c);
    } else {
      var q := sqrt(d);
      QuadraticFirstRoot(a, b, c, q, (-b - q) / (2.0 * a));
    }
  }

  /** The vector from the first ball's centre to the second's, `s` time units ahead. */
  function Separation(ball1: Ball, ball2: Ball, s: real): Vector
    reads ball1, ball2
  {
    ball2.PredictPosition(s).Subtract(ball1.PredictPosition(s))
  }

  /**
   * Squared distance between the centres minus the squared sum of the radii,
   * `s` time units ahead: negative when the balls overlap, zero when they touch.
   */
  ghost function Gap(ball1: Ball, ball2: Ball, s: real): real
    reads ball1, ball2
  {
    var reach := ball1.radius + ball2.radius;
    Separation(ball1, ball2, s).LengthSquared() - reach * reach
  }

  /** The same quantity for a relative position, a relative velocity and a contact distance. */
  ghost function GapAlong(relPos: Vector, relVel: Vector, reach: real, s: real): real
  {
    relPos.Add(relVel.Scale(s)).LengthSquared() - reach * reach
  }

  /** Seen from the first ball, the second moves at the relative velocity. */
  lemma SeparationIsRelativeMotion(ball1: Ball, ball2: Ball, s: real)
    ensures var relPos := ball2.position.Subtract(ball1.position);
            var relVel := ball2.velocity.Subtract(ball1.velocity);
            && Separation(ball1, ball2, s) == relPos.Add(relVel.Scale(s))
            && Gap(ball1, ball2, s) == GapAlong(relPos, relVel, ball1.radius + ball2.radius, s)
  {
    var p1, p2, v1, v2 := ball1.position, ball2.position, ball1.velocity, ball2.velocity;
    assert (p2.x + v2.x * s) - (p1.x + v1.x * s) == (p2.x - p1.x) + (v2.x - v1.x) * s;
    assert (p2.y + v2.y * s) - (p1.y + v1.y * s) == (p2.y - p1.y) + (v2.y - v1.y) * s;
  }

  /** `(p + v·s)²` expanded. */
  lemma ExpandLinearSquare(p: real, v: real, s: real)
    ensures (p + v * s) * (p + v * s) == p * p + 2.0 * (p * v) * s + (v * v) * s * s
  {
  }

  /**
   * The gap is the quadratic the prediction solves:
   * `a = |Δv|²`, `b = 2·Δp·Δv`, `c = |Δp|² − (r1 + r2)²` (index.js:195-202).
   */
  lemma GapAlongIsQuadratic(relPos: Vector, relVel: Vector, reach: real, s: real)
    ensures GapAlong(relPos, relVel, reach, s) ==
              Quad(relVel.LengthSquared(), 2.0 * relPos.Dot(relVel), relPos.LengthSquared() - reach * reach, s)
  {
    var px, py, vx, vy := relPos.x, relPos.y, relVel.x, relVel.y;
    ExpandLinearSquare(px, vx, s);
    ExpandLinearSquare(py, vy, s);
    assert (vx * vx) * s * s + (vy * vy) * s * s == (vx * vx + vy * vy) * s * s;
    assert 2.0 * (px * vx) * s + 2.0 * (py * vy) * s == 2.0 * (px * vx + py * vy) * s;
  }

  /** At the start the gap is the constant term of the quadratic. */
  lemma GapAlongAtStart(relPos: Vector, relVel: Vector, reach: real)
    ensures GapAlong(relPos, relVel, reach, 0.0) == relPos.LengthSquared() - reach * reach
  {
    GapAlongIsQuadratic(relPos, relVel, reach, 0.0);
  }

  /** With no relative motion the gap at any time is the gap at the start. */
  lemma GapAlongStill(relPos: Vector, relVel: Vector, reach: real, s: real)
    requires relVel == Zero
    ensures GapAlong(relPos, relVel, reach, s) == GapAlong(relPos, relVel, reach, 0.0)
  {
    assert relVel.Scale(s) == Zero;
    assert relVel.Scale(0.0) == Zero;
    assert relPos.Add(Zero) == relPos;
  }

  /** With no relative motion the gap never changes. */
  lemma GapAlongConstant(relPos: Vector, relVel: Vector, reach: real)
    requires relVel == Zero
    ensures forall s :: GapAlong(relPos, relVel, reach, s) == GapAlong(relPos, relVel, reach, 0.0)
  {
    forall s
      ensures GapAlong(relPos, relVel, reach, s) == GapAlong(relPos, relVel, reach, 0.0)
    {
      GapAlongStill(relPos, relVel, reach, s);
    }
  }

  /** With zero squared relative speed the gap never changes. */
  lemma GapAlongWhenStill(relPos: Vector, relVel: Vector, reach: real)
    ensures relVel.LengthSquared() == 0.0 ==>
              forall s :: GapAlong(relPos, relVel, reach, s) == GapAlong(relPos, relVel, reach, 0.0)
  {
    if relVel.LengthSquared() == 0.0 {
      assert relVel == Zero by {
        LengthSquaredZero(relVel);
      }
      GapAlongConstant(relPos, relVel, reach);
    }
  }

  /**
   * Starting apart and moving relative to each other, the gap first closes at
   * the root that is reported, stays open until then, and stays open from now
   * on when no root is reported.
   */
  lemma GapAlongFirstZero(relPos: Vector, relVel: Vector, reach: real, sqrt: real -> real)
    requires IsSqrt(sqrt)
    requires 0.0 < GapAlong(relPos, relVel, reach, 0.0)
    ensures var a, b, c := relVel.LengthSquared(), 2.0 * relPos.Dot(relVel), relPos.LengthSquared() - reach * reach;
            && 0.0 < c
            && (a != 0.0 && SmallerRoot(a, b, c, sqrt).Some? ==>
                  && GapAlong(relPos, relVel, reach, SmallerRoot(a, b, c, sqrt).value) == 0.0
                  && forall s :: s < SmallerRoot(a, b, c, sqrt).value ==> 0.0 < GapAlong(relPos, relVel, reach, s))
            && (a != 0.0 && SmallerRoot(a, b, c, sqrt).None? ==>
                  forall s :: 0.0 <= s ==> 0.0 < GapAlong(relPos, relVel, reach, s))
  {
    var a, b, c := relVel.LengthSquared(), 2.0 * relPos.Dot(relVel), relPos.LengthSquared() - reach * reach;
    GapAlongAtStart(relPos, relVel, reach);
    if a != 0.0 {
      LengthSquaredPositive(relVel);
      SmallerRootFirstZero(a, b, c, sqrt);
      forall s
        ensures GapAlong(relPos, relVel, reach, s) == Quad(a, b, c, s)
      {
        GapAlongIsQuadratic(relPos, relVel, reach, s);
      }
    }
  }

  /**
   * The first time two balls moving at constant velocity touch (index.js:191-234):
   * nothing when they do not move relative to each other; time 0 when they
   * already overlap and are approaching; nothing when they overlap and are not
   * approaching; otherwise the smaller root of the gap quadratic, if it is not
   * in the past. The normal points from the first ball's centre to the
   * second's at the time of contact.
   */
  function PredictCollision(ball1: Ball, i: nat, ball2: Ball, j: nat, sqrt: real -> real): (r: Option<Collision>)
    reads ball1, ball2
    ensures r.Some? ==> r.value.BallHit? && r.value.ball1 == i && r.value.ball2 == j && 0.0 <= r.value.time
  {
    var relPos := ball2.position.Subtract(ball1.position);
    var relVel := ball2.velocity.Subtract(ball1.velocity);
    var a := relVel.LengthSquared();
    if a == 0.0 then None
    else
      var b := 2.0 * relPos.Dot(relVel);
      var reach := ball1.radius + ball2.radius;
      var c := relPos.LengthSquared() - reach * reach;
      if c <= 0.0 then
        if relVel.Dot(relPos) >= 0.0 then None
        else Some(BallHit(0.0, i, j, relPos.Normalize(sqrt)))
      else
        match SmallerRoot(a, b, c, sqrt)
        case None => None
        case Some(t) => Some(BallHit(t, i, j, Separation(ball1, ball2, t).Normalize(sqrt)))
  }

  /**
   * Balls that already overlap or touch: an impact is reported, at time 0 and
   * along the line of centres, exactly when they move relative to each other
   * and are approaching.
   */
  lemma PredictCollisionWhenTouching(ball1: Ball, i: nat, ball2: Ball, j: nat, sqrt: real -> real)
    requires Gap(ball1, ball2, 0.0) <= 0.0
    ensures var r := PredictCollision(ball1, i, ball2, j, sqrt);
            var relPos := ball2.position.Subtract(ball1.position);
            var relVel := ball2.velocity.Subtract(ball1.velocity);
            && (r.Some? <==> relVel != Zero && relVel.Dot(relPos) < 0.0)
            && (r.Some? ==> r.value.time == 0.0 && r.value.normal == relPos.Normalize(sqrt))
  {
    var relPos := ball2.position.Subtract(ball1.position);
    var relVel := ball2.velocity.Subtract(ball1.velocity);
    var reach := ball1.radius + ball2.radius;
    var r := PredictCollision(ball1, i, ball2, j, sqrt);
    assert relPos.LengthSquared() - reach * reach <= 0.0 by {
      SeparationIsRelativeMotion(ball1, ball2, 0.0);
      GapAlongAtStart(relPos, relVel, reach);
    }
    assert r.Some? <==> relVel.LengthSquared() != 0.0 && relVel.Dot(relPos) < 0.0;
    LengthSquaredZero(relVel);
  }

  /** For balls apart now, the reported time is the earlier root of the gap quadratic. */
  lemma PredictCollisionApart(ball1: Ball, i: nat, ball2: Ball, j: nat, sqrt: real -> real)
    ensures var r := PredictCollision(ball1, i, ball2, j, sqrt);
            var relPos := ball2.position.Subtract(ball1.position);
            var relVel := ball2.velocity.Subtract(ball1.velocity);
            var reach := ball1.radius + ball2.radius;
            var a, b, c := relVel.LengthSquared(), 2.0 * relPos.Dot(relVel), relPos.LengthSquared() - reach * reach;
            0.0 < c ==>
              && (a == 0.0 ==> r.None?)
              && (a != 0.0 ==> (r.Some? <==> SmallerRoot(a, b, c, sqrt).Some?))
              && (a != 0.0 && r.Some? ==> r.value.time == SmallerRoot(a, b, c, sqrt).value)
  {
  }

  /**
   * Balls that are apart now: a reported impact is the first moment they
   * touch, and when none is reported they stay apart at every moment from now on.
   */
  lemma PredictCollisionFirstContact(ball1: Ball, i: nat, ball2: Ball, j: nat, sqrt: real -> real)
    requires IsSqrt(sqrt)
    requires 0.0 < Gap(ball1, ball2, 0.0)
    ensures var r := PredictCollision(ball1, i, ball2, j, sqrt);
            && (r.Some? ==> Gap(ball1, ball2, r.value.time) == 0.0)
            && (r.Some? ==> forall s :: 0.0 <= s < r.value.time ==> 0.0 < Gap(ball1, ball2, s))
            && (r.None? ==> forall s :: 0.0 <= s ==> 0.0 < Gap(ball1, ball2, s))
  {
    var relPos := ball2.position.Subtract(ball1.position);
    var relVel := ball2.velocity.Subtract(ball1.velocity);
    var reach := ball1.radius + ball2.radius;
    forall s
      ensures Gap(ball1, ball2, s) == GapAlong(relPos, relVel, reach, s)
    {
      SeparationIsRelativeMotion(ball1, ball2, s);
    }
    GapAlongFirstZero(relPos, relVel, reach, sqrt);
    PredictCollisionApart(ball1, i, ball2, j, sqrt);
    GapAlongWhenStill(relPos, relVel, reach);
  }

  /**
   * The normal of a reported ball impact is the unit vector along the line of
   * centres at the moment of impact, pointing from the first ball to the second.
   */
  lemma PredictCollisionNormal(ball1: Ball, i: nat, ball2: Ball, j: nat, sqrt: real -> real)
    requires IsSqrt(sqrt)
    requires ball1.WellFormed() && ball2.WellFormed()
    ensures var r := PredictCollision(ball1, i, ball2, j, sqrt);
            r.Some? ==>
              var sep := Separation(ball1, ball2, r.value.time);
              && r.value.normal == sep.Normalize(sqrt)
              && r.value.normal.LengthSquared() == 1.0
              && 0.0 < r.value.normal.Dot(sep)
  {
    var r := PredictCollision(ball1, i, ball2, j, sqrt);
    if r.Some? {
      var t := r.value.time;
      var sep := Separation(ball1, ball2, t);
      var relPos := ball2.position.Subtract(ball1.position);
      var relVel := ball2.velocity.Subtract(ball1.velocity);
      if Gap(ball1, ball2, 0.0) <= 0.0 {
        PredictCollisionWhenTouching(ball1, i, ball2, j, sqrt);
        assert sep == relPos by {
          PredictPositionAdditive(ball1, 0.0, 0.0);
          PredictPositionAdditive(ball2, 0.0, 0.0);
        }
        assert relPos != Zero by {
          assert relVel.Dot(relPos) != 0.0;
        }
      } else {
        PredictCollisionFirstContact(ball1, i, ball2, j, sqrt);
        var reach := ball1.radius + ball2.radius;
        assert sep.LengthSquared() != 0.0 by {
          SquarePositive(reach, reach * reach);
        }
        LengthSquaredZero(sep);
      }
      NormalizeUnit(sep, sqrt);
    }
  }
}
