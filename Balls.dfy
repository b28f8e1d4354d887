/**
 * A ball (index.js:57-95): position and velocity change as the simulation runs;
 * radius, mass and restitution are fixed when the ball is made.
 */
module Balls {
  import opened RealMath
  import opened Vectors

  /**
   * The boundary clamp on one axis (index.js:79-93, and the same code at
   * index.js:332-347). Returns the new coordinate and velocity component; the
   * low wall is tested first.
   */
  function ClampAxis(p: real, v: real, radius: real, restitution: real, bound: real): (real, real)
  {
    if p - radius < 0.0 then
      (radius, Abs(v) * restitution)
    else if p + radius > bound then
      (bound - radius, -Abs(v) * restitution)
    else
      (p, v)
  }

  /**
   * What the clamp guarantees: in an arena at least one diameter wide the
   * coordinate ends between the two walls (the ball touches neither from
   * outside); a ball past the low wall is put against it and sent inward, one
   * past the high wall likewise, in both cases with its speed along the axis
   * scaled by the restitution; a ball already inside is left alone.
   */
  lemma ClampAxisProperties(p: real, v: real, radius: real, restitution: real, bound: real)
    requires 0.0 <= restitution
    ensures var r := ClampAxis(p, v, radius, restitution, bound);
      && (2.0 * radius <= bound ==> radius <= r.0 <= bound - radius)
      && (p - radius < 0.0 ==> r.0 == radius && 0.0 <= r.1 && Abs(r.1) == restitution * Abs(v))
      && (0.0 <= p - radius && bound < p + radius ==>
            r.0 == bound - radius && r.1 <= 0.0 && Abs(r.1) == restitution * Abs(v))
      && (radius <= p <= bound - radius ==> r == (p, v))
  {
    var a := Abs(v);
    var m := a * restitution;
    if p - radius < 0.0 || p + radius > bound {
      ProductNonNegative(a, restitution, m);
    }
  }

  /** The clamp on both axes: the new position. */
  function ClampPosition(p: Vector, v: Vector, radius: real, restitution: real, width: real, height: real): Vector
  {
    Vector(ClampAxis(p.x, v.x, radius, restitution, width).0, ClampAxis(p.y, v.y, radius, restitution, height).0)
  }

  /** The clamp on both axes: the new velocity. */
  function ClampVelocity(p: Vector, v: Vector, radius: real, restitution: real, width: real, height: real): Vector
  {
    Vector(ClampAxis(p.x, v.x, radius, restitution, width).1, ClampAxis(p.y, v.y, radius, restitution, height).1)
  }

  /**
   * In an arena at least one diameter wide and high, the clamped centre keeps
   * the whole ball inside, and a ball already inside is left alone.
   */
  lemma ClampKeepsInside(p: Vector, v: Vector, radius: real, restitution: real, width: real, height: real)
    requires 0.0 <= restitution
    requires 2.0 * radius <= width && 2.0 * radius <= height
    ensures var q := ClampPosition(p, v, radius, restitution, width, height);
            radius <= q.x <= width - radius && radius <= q.y <= height - radius
    ensures radius <= p.x <= width - radius && radius <= p.y <= height - radius ==>
              ClampPosition(p, v, radius, restitution, width, height) == p &&
              ClampVelocity(p, v, radius, restitution, width, height) == v
  {
    ClampAxisProperties(p.x, v.x, radius, restitution, width);
    ClampAxisProperties(p.y, v.y, radius, restitution, height);
  }

  class Ball {
    var position: Vector
    var velocity: Vector
    const radius: real
    const mass: real
    const restitution: real

    /** What the rest of the engine assumes of every ball: positive size and mass, restitution in [0, 1]. */
    predicate WellFormed()
    {
      0.0 < radius && 0.0 < mass && 0.0 <= restitution <= 1.0
    }

    /** A ball at `(x, y)`; unless given, the velocity is `(0, 0)` and the restitution `1.0` (index.js:58-71). */
    constructor (x: real, y: real, radius: real, mass: real, velocity: Vector := Vector(0.0, 0.0), restitution: real := 1.0)
      ensures position == Vector(x, y) && this.velocity == velocity
      ensures this.radius == radius && this.mass == mass && this.restitution == restitution
    {
      position := Vector(x, y);
      this.velocity := velocity;
      this.radius := radius;
      this.mass := mass;
      this.restitution := restitution;
    }

    /** Where the ball will be after `dt` at its current velocity; the ball itself is not moved. */
    function PredictPosition(dt: real): (r: Vector)
      reads this
      ensures dt == 0.0 || velocity == Zero ==> r == position
    {
      position.Add(velocity.Scale(dt))
    }

    /** Puts the ball back inside a `canvasWidth` by `canvasHeight` arena, axis by axis. */
    method HandleCollisions(canvasWidth: real, canvasHeight: real)
      modifies this
      ensures position == ClampPosition(old(position), old(velocity), radius, restitution, canvasWidth, canvasHeight)
      ensures velocity == ClampVelocity(old(position), old(velocity), radius, restitution, canvasWidth, canvasHeight)
    {
      if position.x - radius < 0.0 {
        position := position.(x := radius);
        velocity := velocity.(x := Abs(velocity.x) * restitution);
      } else if position.x + radius > canvasWidth {
        position := position.(x := canvasWidth - radius);
        velocity := velocity.(x := -Abs(velocity.x) * restitution);
      }

      if position.y - radius < 0.0 {
        position := position.(y := radius);
        velocity := velocity.(y := Abs(velocity.y) * restitution);
      } else if position.y + radius > canvasHeight {
        position := position.(y := canvasHeight - radius);
        velocity := velocity.(y := -Abs(velocity.y) * restitution);
      }
    }
  }

  /**
   * Predicting `s` ahead and then `t` ahead from there lands where predicting
   * `s + t` ahead does, and predicting zero ahead stays put: advancing a ball in
   * sub-steps moves it as one straight advance would.
   */
  lemma PredictPositionAdditive(ball: Ball, s: real, t: real)
    ensures ball.PredictPosition(0.0) == ball.position
    ensures ball.PredictPosition(s).Add(ball.velocity.Scale(t)) == ball.PredictPosition(s + t)
  {
    var v := ball.velocity;
    assert v.x * s + v.x * t == v.x * (s + t);
    assert v.y * s + v.y * t == v.y * (s + t);
  }
}
