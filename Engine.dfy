/**
 * The engine (index.js:97-401): the list of balls, the search for the next
 * impact, its resolution, the event-by-event sub-stepping of one frame and the
 * debug bookkeeping (collision counter, minimum centre distance, short traces).
 */
module Engine {
  import opened Wrappers
  import opened RealMath
  import opened Vectors
  import opened Balls
  import opened Collisions
  import opened Response

  // ---------------------------------------------------------------- scan order

  /**
   * A place in the scan of `findNextCollision` (index.js:113-140): for each
   * ball `i` in turn, first its walls, then each pair `(i, j)` with `j > i`.
   */
  datatype Slot = WallSlot(i: nat) | PairSlot(i: nat, j: nat)
  {
    /** Position within ball `i`'s part of the scan: walls come first. */
    function Minor(): nat
    {
      if WallSlot? then 0 else j
    }

    /** The slot names a wall of a ball, or a pair `i < j`, among `n` balls. */
    predicate In(n: nat)
    {
      i < n && (PairSlot? ==> i < j < n)
    }

    /** This slot is scanned before `other`. */
    predicate Before(other: Slot)
    {
      i < other.i || (i == other.i && Minor() < other.Minor())
    }
  }

  /** The scan visits walls strictly before pairs and pairs in order: `Before` is a strict order on slots. */
  lemma BeforeIsStrictOrder(a: Slot, b: Slot, c: Slot, n: nat)
    requires a.In(n) && b.In(n)
    ensures !a.Before(a)
    ensures a.Before(b) && b.Before(c) ==> a.Before(c)
    ensures a != b ==> a.Before(b) || b.Before(a)
  {
  }

  /** After a ball's walls comes its first pair. */
  lemma SlotAfterWall(i: nat, n: nat)
    requires i < n
    ensures forall s: Slot :: s.In(n) ==> (s.Before(PairSlot(i, i + 1)) <==> s.Before(WallSlot(i)) || s == WallSlot(i))
  {
  }

  /** After pair `(i, j)` comes pair `(i, j + 1)`. */
  lemma SlotAfterPair(i: nat, j: nat, n: nat)
    requires i < j < n
    ensures forall s: Slot :: s.In(n) ==> (s.Before(PairSlot(i, j + 1)) <==> s.Before(PairSlot(i, j)) || s == PairSlot(i, j))
  {
  }

  /** After ball `i`'s last pair comes ball `i + 1`'s walls. */
  lemma SlotAfterRow(i: nat, n: nat)
    ensures forall s: Slot :: s.In(n) ==> (s.Before(PairSlot(i, n)) <==> s.Before(WallSlot(i + 1)))
  {
  }

  // ---------------------------------------------------------------- trace

  /** Number of points kept per trace (index.js:380). */
  const TraceLength: nat := 5

  /** Below this area three trace points count as collinear (index.js:375). */
  const CollinearTolerance: real := 0.0001

  /** Twice the area of the triangle `p1 p2 p3` (index.js:370-372). */
  function TriangleArea(p1: Vector, p2: Vector, p3: Vector): real
  {
    Abs((p2.x - p1.x) * (p3.y - p1.y) - (p3.x - p1.x) * (p2.y - p1.y))
  }

  /**
   * One trace update (index.js:356-380): append the point; if the last three
   * points are collinear drop the middle one; then keep only the newest five.
   */
  function TraceAfterPush(trace: seq<Vector>, p: Vector): seq<Vector>
  {
    var pushed := trace + [p];
    var n := |pushed|;
    var thinned :=
      if n >= 3 && TriangleArea(pushed[n - 3], pushed[n - 2], pushed[n - 1]) < CollinearTolerance
      then pushed[..n - 2] + pushed[n - 1..]
      else pushed;
    if |thinned| > TraceLength then thinned[1..] else thinned
  }

  /**
   * A trace of at most five points stays at most five points long after an
   * update, ends with the new point, and holds nothing but the new point and
   * points it already held.
   */
  lemma TraceAfterPushBounded(trace: seq<Vector>, p: Vector)
    requires |trace| <= TraceLength
    ensures var r := TraceAfterPush(trace, p);
            && 1 <= |r| <= TraceLength
            && r[|r| - 1] == p
            && (forall q :: q in r ==> q == p || q in trace)
  {
    var pushed := trace + [p];
    var n := |pushed|;
    assert forall q :: q in pushed ==> q == p || q in trace;
  }

  // ---------------------------------------------------------------- the engine

  /** What `getBallsState` reports about a ball (index.js:395-399). */
  datatype BallView = BallView(x: real, y: real, radius: real)

  /** The views of a list of balls, in order. */
  function Views(bs: seq<Ball>): (r: seq<BallView>)
    reads bs
    ensures |r| == |bs|
    ensures forall k :: 0 <= k < |bs| ==>
              r[k] == BallView(bs[k].position.x, bs[k].position.y, bs[k].radius)
  {
    if bs == [] then []
    else [BallView(bs[0].position.x, bs[0].position.y, bs[0].radius)] + Views(bs[1..])
  }

  /** A collision names balls that exist among `n`, and two different ones for a pair. */
  predicate EventIn(c: Collision, n: nat)
  {
    match c
    case WallHit(_, ball, _) => ball < n
    case BallHit(_, ball1, ball2, _) => ball1 < n && ball2 < n && ball1 != ball2
  }

  /** Ball `k` takes part in the collision. */
  predicate Involves(c: Collision, k: nat)
  {
    match c
    case WallHit(_, ball, _) => ball == k
    case BallHit(_, ball1, ball2, _) => ball1 == k || ball2 == k
  }

  /**
   * A predicted wall impact turns the ball back: the normal is one of the four
   * axis normals, the ball is moving against it, and the reflection that
   * `resolveCollision` applies (index.js:241-246) sends it along the normal,
   * away from the wall.
   */
  lemma WallEventTurnsBallBack(ball: Ball, index: nat, width: real, height: real)
    ensures var r := PredictWallCollision(ball, index, width, height);
            r.Some? ==>
              && IsWallNormal(r.value.normal)
              && ball.velocity.Dot(r.value.normal) < 0.0
              && 0.0 < Reflect(ball.velocity, r.value.normal).Dot(r.value.normal)
  {
    var r := PredictWallCollision(ball, index, width, height);
    if r.Some? {
      ReflectAcrossWall(ball.velocity, r.value.normal);
    }
  }

  /**
   * The double advance at a low wall. A ball that reaches the low wall at a
   * time `t > 0` is moved by `step` to exactly touching the wall, which the
   * clamp (index.js:332-347) leaves as it is; `resolveCollision` then moves
   * it `t` further at the same velocity (index.js:239), so its centre ends
   * `|v|·t` beyond the touching position and the ball sticks out of the arena.
   */
  lemma WallImpactAdvancedTwice(p: real, v: real, radius: real, restitution: real, bound: real, t: real)
    requires v < 0.0 && 0.0 < t && 2.0 * radius <= bound
    requires AxisHit(p, v, radius, bound) == Some(t)
    ensures ClampAxis(p + v * t, v, radius, restitution, bound) == (radius, v)
    ensures var x := ClampAxis(p + v * t, v, radius, restitution, bound).0 + v * t;
            x < radius && radius - x == -v * t
  {
    AxisHitExact(p, v, radius, bound);
    assert p + v * t == radius;
  }

  /**
   * An instance: radius 10 at `x = 20` moving at `-100` in an arena 200 wide.
   * The wall is reached at `t = 0.1`; after the round the centre is at `0`,
   * half the ball outside. With a frame of `0.1` nothing is left to spend, and
   * the guard at index.js:322 ends the frame there.
   */
  lemma WallImpactExample()
    ensures AxisHit(20.0, -100.0, 10.0, 200.0) == Some(0.1)
    ensures ClampAxis(20.0 + -100.0 * 0.1, -100.0, 10.0, 1.0, 200.0).0 + -100.0 * 0.1 == 0.0
  {
    WallImpactAdvancedTwice(20.0, -100.0, 10.0, 1.0, 200.0, 0.1);
  }

  /** The trace a ball had before a debug update; a ball seen for the first time starts from none. */
  function PreviousTrace(traces: seq<seq<Vector>>, k: nat): seq<Vector>
  {
    if k < |traces| then traces[k] else []
  }

  /** One trace per centre, of one to five points, ending with that centre. */
  ghost predicate TracesCurrent(traces: seq<seq<Vector>>, centres: seq<Vector>)
  {
    && |traces| == |centres|
    && (forall k :: 0 <= k < |centres| ==>
          1 <= |traces[k]| <= TraceLength && traces[k][|traces[k]| - 1] == centres[k])
  }

  /**
   * The traces with the first `i` centres pushed (index.js:353-380): trace `k`
   * for `k < i` is `before`'s trace `k` (or none) with centre `k` pushed; the
   * others are as they were; none is longer than five.
   */
  ghost predicate TracesPushedUpTo(traces: seq<seq<Vector>>, before: seq<seq<Vector>>, centres: seq<Vector>, i: nat)
  {
    && i <= |centres|
    && |traces| == (if i < |before| then |before| else i)
    && (forall k :: 0 <= k < i ==> traces[k] == TraceAfterPush(PreviousTrace(before, k), centres[k]))
    && (forall k :: i <= k < |traces| ==> k < |before| && traces[k] == before[k])
    && (forall k :: 0 <= k < |traces| ==> |traces[k]| <= TraceLength)
  }

  /** Updating trace `i` as `updateDebugInfo` does advances the trace invariant by one ball. */
  lemma TracesPushStep(traces: seq<seq<Vector>>, next: seq<seq<Vector>>, before: seq<seq<Vector>>, centres: seq<Vector>, i: nat)
    requires i < |centres|
    requires TracesPushedUpTo(traces, before, centres, i)
    requires |next| == if i < |traces| then |traces| else i + 1
    requires next[i] == TraceAfterPush(PreviousTrace(traces, i), centres[i])
    requires forall k :: 0 <= k < |next| && k != i ==> next[k] == traces[k]
    requires forall k :: 0 <= k < |next| ==> |next[k]| <= TraceLength
    ensures TracesPushedUpTo(next, before, centres, i + 1)
  {
    assert PreviousTrace(traces, i) == PreviousTrace(before, i);
  }

  /**
   * After a debug update every ball has a trace of one to five points ending
   * with its centre, provided no trace held more than five points before.
   */
  lemma PushedTracesCurrent(traces: seq<seq<Vector>>, before: seq<seq<Vector>>, centres: seq<Vector>)
    requires forall k :: 0 <= k < |before| ==> |before[k]| <= TraceLength
    requires |before| <= |centres|
    requires TracesPushedUpTo(traces, before, centres, |centres|)
    ensures TracesCurrent(traces, centres)
  {
    forall k | 0 <= k < |centres|
      ensures 1 <= |traces[k]| <= TraceLength && traces[k][|traces[k]| - 1] == centres[k]
    {
      TraceAfterPushBounded(PreviousTrace(before, k), centres[k]);
    }
  }

  /** Pair `(k, l)` is measured before the cursor `(ci, cj)` of the distance loop. */
  predicate PairBefore(k: nat, l: nat, ci: nat, cj: nat)
  {
    k < ci || (k == ci && l < cj)
  }

  /** The centres of a list of balls, in order. */
  function Centres(bs: seq<Ball>): (r: seq<Vector>)
    reads bs
    ensures |r| == |bs|
    ensures forall k :: 0 <= k < |bs| ==> r[k] == bs[k].position
  {
    if bs == [] then [] else [bs[0].position] + Centres(bs[1..])
  }

  /** Centres depend on the balls' positions only: a state change that keeps every position keeps them. */
  twostate lemma CentresUnchanged(bs: seq<Ball>)
    requires forall k :: 0 <= k < |bs| ==> old(bs[k].position) == bs[k].position
    ensures Centres(bs) == old(Centres(bs))
  {
    assert forall k :: 0 <= k < |bs| ==> Centres(bs)[k] == old(Centres(bs))[k];
  }

  /** The distance between two centres, as a function value the minimum-distance predicates are stated over. */
  function Distance(sqrt: real -> real): (Vector, Vector) -> real
  {
    (p: Vector, q: Vector) => p.DistanceTo(q, sqrt)
  }

  /**
   * `m` is the smallest distance `dist` between centres `k < l` over the pairs
   * measured before the cursor `(ci, cj)`, and `None` when no pair is.
   */
  ghost predicate TrackedMinimum(m: Option<real>, centres: seq<Vector>, ci: nat, cj: nat, dist: (Vector, Vector) -> real)
  {
    && (m.None? <==> forall k, l :: 0 <= k < l < |centres| ==> !PairBefore(k, l, ci, cj))
    && (m.Some? ==>
          && (forall k, l {:trigger dist(centres[k], centres[l])} :: 0 <= k < l < |centres| && PairBefore(k, l, ci, cj) ==>
                m.value <= dist(centres[k], centres[l]))
          && (exists k, l :: 0 <= k < l < |centres| && PairBefore(k, l, ci, cj) &&
                m.value == dist(centres[k], centres[l])))
  }

  /**
   * The minimum centre distance as `updateDebugInfo` reports it: none with
   * fewer than two balls, otherwise a distance between two centres that no
   * other pair undercuts.
   */
  ghost predicate IsMinimumDistance(m: Option<real>, centres: seq<Vector>, dist: (Vector, Vector) -> real)
  {
    && (m.None? <==> |centres| < 2)
    && (m.Some? ==>
          && (forall k, l {:trigger dist(centres[k], centres[l])} :: 0 <= k < l < |centres| ==> m.value <= dist(centres[k], centres[l]))
          && (exists k, l :: 0 <= k < l < |centres| && m.value == dist(centres[k], centres[l])))
  }

  /** Two cursors with the same pairs before them give the same running minimum. */
  lemma TrackedSame(m: Option<real>, centres: seq<Vector>, ci: nat, cj: nat, di: nat, dj: nat, dist: (Vector, Vector) -> real)
    requires forall k, l :: 0 <= k < l < |centres| ==> (PairBefore(k, l, ci, cj) <==> PairBefore(k, l, di, dj))
    requires TrackedMinimum(m, centres, ci, cj, dist)
    ensures TrackedMinimum(m, centres, di, dj, dist)
  {
  }

  /** Starting ball `i`'s row of pairs adds no pair. */
  lemma TrackedRowStart(m: Option<real>, centres: seq<Vector>, i: nat, dist: (Vector, Vector) -> real)
    requires TrackedMinimum(m, centres, i, i, dist)
    ensures TrackedMinimum(m, centres, i, i + 1, dist)
  {
    TrackedSame(m, centres, i, i, i, i + 1, dist);
  }

  /** Finishing ball `i`'s row of pairs is starting ball `i + 1`'s. */
  lemma TrackedRowEnd(m: Option<real>, centres: seq<Vector>, i: nat, dist: (Vector, Vector) -> real)
    requires TrackedMinimum(m, centres, i, |centres|, dist)
    ensures TrackedMinimum(m, centres, i + 1, i + 1, dist)
  {
    TrackedSame(m, centres, i, |centres|, i + 1, i + 1, dist);
  }

  /** Folding the distance of the pair at the cursor into the running minimum keeps it the minimum. */
  lemma TrackVisit(m: Option<real>, centres: seq<Vector>, i: nat, j: nat, d: real, dist: (Vector, Vector) -> real)
    requires i < j < |centres|
    requires TrackedMinimum(m, centres, i, j, dist)
    requires d == dist(centres[i], centres[j])
    ensures TrackedMinimum(Some(if m.None? then d else Min(m.value, d)), centres, i, j + 1, dist)
  {
    var r := if m.None? then d else Min(m.value, d);
    assert PairBefore(i, j, i, j + 1);
    assert r <= d;
    forall k, l | 0 <= k < l < |centres| && PairBefore(k, l, i, j + 1)
      ensures r <= dist(centres[k], centres[l])
    {
      if PairBefore(k, l, i, j) {
        assert m.Some?;
      } else {
        assert k == i && l == j;
      }
    }
    if m.Some? && m.value <= d {
      var k0, l0 :| 0 <= k0 < l0 < |centres| && PairBefore(k0, l0, i, j) && m.value == dist(centres[k0], centres[l0]);
      assert PairBefore(k0, l0, i, j + 1) && r == dist(centres[k0], centres[l0]);
    } else {
      assert r == dist(centres[i], centres[j]);
    }
  }

  /** Once every pair has been measured the running minimum is the minimum distance. */
  lemma TrackedAll(m: Option<real>, centres: seq<Vector>, dist: (Vector, Vector) -> real)
    requires TrackedMinimum(m, centres, |centres|, |centres|, dist)
    ensures IsMinimumDistance(m, centres, dist)
  {
    if 2 <= |centres| {
      assert PairBefore(0, 1, |centres|, |centres|);
    }
  }

  /**
   * The loop of `updateDebugInfo` (index.js:353-391), over the centres of the
   * balls in order and the traces `before` it: the new traces, and the
   * smallest centre distance over all pairs.
   */
  method MeasureAll(centres: seq<Vector>, before: seq<seq<Vector>>, sqrt: real -> real)
    returns (traces: seq<seq<Vector>>, closest: Option<real>)
    requires |before| <= |centres| && forall k :: 0 <= k < |before| ==> |before[k]| <= TraceLength
    ensures TracesPushedUpTo(traces, before, centres, |centres|)
    ensures TracesCurrent(traces, centres)
    ensures IsMinimumDistance(closest, centres, Distance(sqrt))
  {
    traces := before;
    closest := None;
    var i := 0;
    while i < |centres|
      invariant 0 <= i <= |centres|
      invariant TracesPushedUpTo(traces, before, centres, i)
      invariant TrackedMinimum(closest, centres, i, i, Distance(sqrt))
    {
      traces := RecordPosition(traces, centres, i, before);
      closest := TrackRow(closest, centres, i, sqrt);
      i := i + 1;
    }
    PushedTracesCurrent(traces, before, centres);
    TrackedAll(closest, centres, Distance(sqrt));
  }

  /**
   * The trace part of one round of `updateDebugInfo` (index.js:356-380):
   * ball `i` gets a trace if it had none, and its centre is pushed onto it,
   * the middle of the last three points dropped when they are collinear, and
   * the oldest point dropped beyond five.
   */
  method RecordPosition(traces: seq<seq<Vector>>, centres: seq<Vector>, i: nat, ghost before: seq<seq<Vector>>)
    returns (next: seq<seq<Vector>>)
    requires i < |centres|
    requires TracesPushedUpTo(traces, before, centres, i)
    ensures TracesPushedUpTo(next, before, centres, i + 1)
  {
    next := traces;
    if i == |next| {
      next := next + [[]];
    }
    var positions := next[i] + [centres[i]];
    if |positions| >= 3 {
      var p1, p2, p3 := positions[|positions| - 3], positions[|positions| - 2], positions[|positions| - 1];
      if TriangleArea(p1, p2, p3) < CollinearTolerance {
        positions := positions[..|positions| - 2] + positions[|positions| - 1..];
      }
    }
    if |positions| > TraceLength {
      positions := positions[1..];
    }
    assert positions == TraceAfterPush(PreviousTrace(traces, i), centres[i]);
    TraceAfterPushBounded(PreviousTrace(traces, i), centres[i]);
    next := next[i := positions];
    TracesPushStep(traces, next, before, centres, i);
  }

  /**
   * The inner loop of `updateDebugInfo` (index.js:383-390): the distances
   * from centre `i` to every later centre, folded into the running minimum `m`.
   */
  method TrackRow(m: Option<real>, centres: seq<Vector>, i: nat, sqrt: real -> real) returns (next: Option<real>)
    requires i < |centres|
    requires TrackedMinimum(m, centres, i, i, Distance(sqrt))
    ensures TrackedMinimum(next, centres, i + 1, i + 1, Distance(sqrt))
  {
    TrackedRowStart(m, centres, i, Distance(sqrt));
    next := m;
    var j := i + 1;
    while j < |centres|
      invariant i + 1 <= j <= |centres|
      invariant TrackedMinimum(next, centres, i, j, Distance(sqrt))
    {
      next := TrackPair(next, centres, i, j, sqrt);
      j := j + 1;
    }
    TrackedRowEnd(next, centres, i, Distance(sqrt));
  }

  /** One pass of that inner loop (index.js:384-389): the distance of the pair `(i, j)` lowers the running minimum. */
  method TrackPair(m: Option<real>, centres: seq<Vector>, i: nat, j: nat, sqrt: real -> real) returns (next: Option<real>)
    requires i < j < |centres|
    requires TrackedMinimum(m, centres, i, j, Distance(sqrt))
    ensures TrackedMinimum(next, centres, i, j + 1, Distance(sqrt))
  {
    var distance := centres[i].DistanceTo(centres[j], sqrt);
    TrackVisit(m, centres, i, j, distance, Distance(sqrt));
    next := Some(if m.None? then distance else Min(m.value, distance));
  }

  class PhysicsEngine {
    var balls: seq<Ball>
    /** Written once, at construction, and never again (index.js:100). */
    const currentTime: real
    /** `None` stands for the source's starting value `Infinity`. */
    var minDistance: Option<real>
    /** Trace of ball `i` at index `i`; created on the first debug update after the ball was added. */
    var lastPositions: seq<seq<Vector>>
    var collisionsCount: nat

    /**
     * The engine's invariant: each ball appears once, every ball is well formed,
     * and there is at most one trace per ball, each of at most five points.
     */
    ghost predicate Valid()
      reads this, balls
    {
      && BallsValid()
      && TracesValid()
    }

    /** The part of the invariant about the traces: at most one per ball, none longer than five. */
    ghost predicate TracesValid()
      reads this`balls, this`lastPositions
    {
      && |lastPositions| <= |balls|
      && (forall i :: 0 <= i < |lastPositions| ==> |lastPositions[i]| <= TraceLength)
    }

    /** The part of the invariant about the balls alone: each appears once and is well formed; the clock is at zero. */
    ghost predicate BallsValid()
      reads this`balls, balls
    {
      && (forall i, j :: 0 <= i < j < |balls| ==> balls[i] != balls[j])
      && (forall i :: 0 <= i < |balls| ==> balls[i].WellFormed())
      && currentTime == 0.0
    }

    constructor ()
      ensures Valid()
      ensures balls == [] && minDistance == None && lastPositions == [] && collisionsCount == 0
    {
      balls := [];
      currentTime := 0.0;
      minDistance := None;
      lastPositions := [];
      collisionsCount := 0;
    }

    /** `add` (index.js:108-110): the ball goes to the end of the list. */
    method Add(ball: Ball)
      requires Valid() && ball.WellFormed() && ball !in balls
      modifies this
      ensures Valid()
      ensures balls == old(balls) + [ball]
      ensures minDistance == old(minDistance) && lastPositions == old(lastPositions)
      ensures collisionsCount == old(collisionsCount)
    {
      balls := balls + [ball];
    }

    /** The prediction the scan makes at a slot. */
    function Event(s: Slot, width: real, height: real, sqrt: real -> real): Option<Collision>
      requires s.In(|balls|)
      reads this, balls
    {
      if s.WallSlot? then PredictWallCollision(balls[s.i], s.i, width, height)
      else PredictCollision(balls[s.i], s.i, balls[s.j], s.j, sqrt)
    }

    /**
     * `findNextCollision` (index.js:113-140): a running minimum over the
     * predictions of every wall and every pair `i < j`, replaced only on a
     * strictly earlier time. Nothing is found exactly when every prediction is
     * empty; otherwise the result is the prediction at some slot, no prediction
     * is earlier, and every slot scanned before it predicts something strictly
     * later or nothing, so on a tie the first slot scanned wins.
     */
    method FindNextCollision(width: real, height: real, sqrt: real -> real) returns (next: Option<Collision>)
      ensures next.None? <==> forall s: Slot :: s.In(|balls|) ==> Event(s, width, height, sqrt).None?
      ensures next.Some? ==>
                exists best: Slot ::
                  && best.In(|balls|)
                  && Event(best, width, height, sqrt) == next
                  && (forall s: Slot :: s.In(|balls|) && Event(s, width, height, sqrt).Some? ==>
                        next.value.time <= Event(s, width, height, sqrt).value.time)
                  && (forall s: Slot :: s.In(|balls|) && s.Before(best) && Event(s, width, height, sqrt).Some? ==>
                        next.value.time < Event(s, width, height, sqrt).value.time)
      ensures next.Some? ==> 0.0 <= next.value.time && EventIn(next.value, |balls|)
    {
      next := None;
      ghost var best: Slot := WallSlot(0);
      var n := |balls|;
      var i := 0;
      while i < n
        invariant 0 <= i <= n
        invariant ScannedMinimum(next, best, WallSlot(i), width, height, sqrt)
      {
        var ball1 := balls[i];
        var wallCollision := PredictWallCollision(ball1, i, width, height);
        SlotAfterWall(i, n);
        ScanVisit(next, best, WallSlot(i), PairSlot(i, i + 1), width, height, sqrt);
        if wallCollision.Some? && (next.None? || wallCollision.value.time < next.value.time) {
          next := wallCollision;
          best := WallSlot(i);
        }
        next, best := ScanRow(i, next, best, width, height, sqrt);
        SlotAfterRow(i, n);
        ScanSame(next, best, PairSlot(i, n), WallSlot(i + 1), width, height, sqrt);
        i := i + 1;
      }
      ScanDone(next, best, width, height, sqrt);
    }

    /**
     * The inner loop of `findNextCollision` (index.js:128-135): the pairs
     * `(i, j)`, `j > i`, in order, each taken when strictly earlier than the
     * best so far.
     */
    method ScanRow(i: nat, next0: Option<Collision>, ghost best0: Slot, width: real, height: real, sqrt: real -> real)
      returns (next: Option<Collision>, ghost best: Slot)
      requires i < |balls|
      requires ScannedMinimum(next0, best0, PairSlot(i, i + 1), width, height, sqrt)
      ensures ScannedMinimum(next, best, PairSlot(i, |balls|), width, height, sqrt)
    {
      next, best := next0, best0;
      var j := i + 1;
      while j < |balls|
        invariant i + 1 <= j <= |balls|
        invariant ScannedMinimum(next, best, PairSlot(i, j), width, height, sqrt)
      {
        next, best := ScanPair(i, j, next, best, width, height, sqrt);
        j := j + 1;
      }
    }

    /** One pass of that inner loop (index.js:129-134): the pair `(i, j)` is taken when strictly earlier. */
    method ScanPair(i: nat, j: nat, next0: Option<Collision>, ghost best0: Slot, width: real, height: real, sqrt: real -> real)
      returns (next: Option<Collision>, ghost best: Slot)
      requires i < j < |balls|
      requires ScannedMinimum(next0, best0, PairSlot(i, j), width, height, sqrt)
      ensures ScannedMinimum(next, best, PairSlot(i, j + 1), width, height, sqrt)
    {
      next, best := next0, best0;
      var collision := PredictCollision(balls[i], i, balls[j], j, sqrt);
      SlotAfterPair(i, j, |balls|);
      ScanVisit(next, best, PairSlot(i, j), PairSlot(i, j + 1), width, height, sqrt);
      if collision.Some? && (next.None? || collision.value.time < next.value.time) {
        next := collision;
        best := PairSlot(i, j);
      }
    }

    /** Once every slot has been scanned the invariant is the specification of the search. */
    lemma ScanDone(next: Option<Collision>, best: Slot, width: real, height: real, sqrt: real -> real)
      requires ScannedMinimum(next, best, WallSlot(|balls|), width, height, sqrt)
      ensures next.None? <==> forall s: Slot :: s.In(|balls|) ==> Event(s, width, height, sqrt).None?
      ensures next.Some? ==>
                && best.In(|balls|)
                && Event(best, width, height, sqrt) == next
                && (forall s: Slot :: s.In(|balls|) && Event(s, width, height, sqrt).Some? ==>
                      next.value.time <= Event(s, width, height, sqrt).value.time)
                && (forall s: Slot :: s.In(|balls|) && s.Before(best) && Event(s, width, height, sqrt).Some? ==>
                      next.value.time < Event(s, width, height, sqrt).value.time)
    {
      assert forall s: Slot :: s.In(|balls|) ==> s.Before(WallSlot(|balls|));
    }

    /** Visiting the slot at the cursor and taking it when strictly earlier keeps the scan invariant. */
    lemma ScanVisit(next: Option<Collision>, best: Slot, cursor: Slot, after: Slot, width: real, height: real, sqrt: real -> real)
      requires cursor.In(|balls|)
      requires forall s: Slot :: s.In(|balls|) ==> (s.Before(after) <==> s.Before(cursor) || s == cursor)
      requires ScannedMinimum(next, best, cursor, width, height, sqrt)
      ensures var e := Event(cursor, width, height, sqrt);
              var take := e.Some? && (next.None? || e.value.time < next.value.time);
              ScannedMinimum(if take then e else next, if take then cursor else best, after, width, height, sqrt)
    {
    }

    /** Two cursors with the same slots before them give the same invariant. */
    lemma ScanSame(next: Option<Collision>, best: Slot, c1: Slot, c2: Slot, width: real, height: real, sqrt: real -> real)
      requires forall s: Slot :: s.In(|balls|) ==> (s.Before(c1) <==> s.Before(c2))
      requires ScannedMinimum(next, best, c1, width, height, sqrt)
      ensures ScannedMinimum(next, best, c2, width, height, sqrt)
    {
    }

    /**
     * Loop invariant of the scan: `next` is the first-scanned earliest
     * prediction at `best` among the slots scanned before `cursor`.
     */
    ghost predicate ScannedMinimum(next: Option<Collision>, best: Slot, cursor: Slot, width: real, height: real, sqrt: real -> real)
      reads this, balls
    {
      && (next.None? <==> forall s: Slot :: s.In(|balls|) && s.Before(cursor) ==> Event(s, width, height, sqrt).None?)
      && (next.Some? ==>
            && best.In(|balls|) && best.Before(cursor)
            && Event(best, width, height, sqrt) == next
            && (forall s: Slot :: s.In(|balls|) && s.Before(cursor) && Event(s, width, height, sqrt).Some? ==>
                  next.value.time <= Event(s, width, height, sqrt).value.time)
            && (forall s: Slot :: s.In(|balls|) && s.Before(best) && Event(s, width, height, sqrt).Some? ==>
                  next.value.time < Event(s, width, height, sqrt).value.time))
    }

    /** `enforceCanvasBounds` (index.js:330-348): the same clamp as the ball's own `handleCollisions`. */
    method EnforceCanvasBounds(ball: Ball, width: real, height: real)
      modifies ball
      ensures ball.position == ClampPosition(old(ball.position), old(ball.velocity), ball.radius, ball.restitution, width, height)
      ensures ball.velocity == ClampVelocity(old(ball.position), old(ball.velocity), ball.radius, ball.restitution, width, height)
    {
      ball.HandleCollisions(width, height);
    }

    /**
     * The loop of `step` that moves every ball `dt` ahead and clamps it
     * (index.js:300-304 and 309-313).
     */
    method AdvanceAll(dt: real, width: real, height: real)
      requires Valid()
      modifies balls
      ensures Valid()
      ensures forall k :: 0 <= k < |balls| ==>
                var b := balls[k];
                && b.position == ClampPosition(old(b.PredictPosition(dt)), old(b.velocity), b.radius, b.restitution, width, height)
                && b.velocity == ClampVelocity(old(b.PredictPosition(dt)), old(b.velocity), b.radius, b.restitution, width, height)
    {
      var i := 0;
      while i < |balls|
        invariant 0 <= i <= |balls|
        invariant Valid()
        invariant forall k :: 0 <= k < i ==>
                    var b := balls[k];
                    && b.position == ClampPosition(old(b.PredictPosition(dt)), old(b.velocity), b.radius, b.restitution, width, height)
                    && b.velocity == ClampVelocity(old(b.PredictPosition(dt)), old(b.velocity), b.radius, b.restitution, width, height)
        invariant forall k :: i <= k < |balls| ==>
                    balls[k].position == old(balls[k].position) && balls[k].velocity == old(balls[k].velocity)
      {
        var ball := balls[i];
        ball.position := ball.PredictPosition(dt);
        EnforceCanvasBounds(ball, width, height);
        i := i + 1;
      }
    }

    /**
     * `resolveCollision` (index.js:236-288). A wall impact moves the ball to
     * the impact and reflects it. A pair impact moves both balls to the impact;
     * if they are already separating along the normal nothing else happens and
     * the impact is not counted; otherwise they are pushed apart when they
     * overlap by more than the threshold and exchange the impulse computed with
     * the smaller of their restitutions. Every other ball is left alone.
     */
    method ResolveCollision(collision: Collision, sqrt: real -> real)
      requires Valid() && EventIn(collision, |balls|)
      modifies this, balls
      ensures Valid()
      ensures balls == old(balls) && minDistance == old(minDistance) && lastPositions == old(lastPositions)
      ensures forall k :: 0 <= k < |balls| && !Involves(collision, k) ==>
                balls[k].position == old(balls[k].position) && balls[k].velocity == old(balls[k].velocity)
      ensures collision.WallHit? ==>
                var b := balls[collision.ball];
                && b.position == old(b.PredictPosition(collision.time))
                && b.velocity == Reflect(old(b.velocity), collision.normal)
                && collisionsCount == old(collisionsCount) + 1
      ensures collision.BallHit? ==>
                var b1, b2 := balls[collision.ball1], balls[collision.ball2];
                var p1, p2 := old(b1.PredictPosition(collision.time)), old(b2.PredictPosition(collision.time));
                var v1, v2 := old(b1.velocity), old(b2.velocity);
                var n := collision.normal;
                if 0.0 < v2.Subtract(v1).Dot(n) then
                  && b1.position == p1 && b2.position == p2
                  && b1.velocity == v1 && b2.velocity == v2
                  && collisionsCount == old(collisionsCount)
                else
                  && b1.position == PushApart(p1, p2, b1.radius, b2.radius, n, sqrt).0
                  && b2.position == PushApart(p1, p2, b1.radius, b2.radius, n, sqrt).1
                  && b1.velocity == ImpulseExchange(v1, v2, b1.mass, b2.mass, Min(b1.restitution, b2.restitution), n).0
                  && b2.velocity == ImpulseExchange(v1, v2, b1.mass, b2.mass, Min(b1.restitution, b2.restitution), n).1
                  && collisionsCount == old(collisionsCount) + 1
    {
      if collision.WallHit? {
        var ball := balls[collision.ball];
        ball.position := ball.PredictPosition(collision.time);
        if collision.normal.x != 0.0 {
          ball.velocity := ball.velocity.(x := -ball.velocity.x);
        }
        if collision.normal.y != 0.0 {
          ball.velocity := ball.velocity.(y := -ball.velocity.y);
        }
      } else {
        var ball1, ball2, normal := balls[collision.ball1], balls[collision.ball2], collision.normal;
        assert ball1 != ball2 by {
          assert collision.ball1 < collision.ball2 || collision.ball2 < collision.ball1;
        }
        var dt := collision.time - currentTime;
        ball1.position := ball1.PredictPosition(dt);
        ball2.position := ball2.PredictPosition(dt);

        var relativeVelocity := ball2.velocity.Subtract(ball1.velocity);
        var velAlongNormal := relativeVelocity.Dot(normal);
        if velAlongNormal > 0.0 {
          return;
        }

        var pushed := PushApart(ball1.position, ball2.position, ball1.radius, ball2.radius, normal, sqrt);
        ball1.position, ball2.position := pushed.0, pushed.1;
        var restitution := Min(ball1.restitution, ball2.restitution);
        var exchanged := ImpulseExchange(ball1.velocity, ball2.velocity, ball1.mass, ball2.mass, restitution, normal);
        ball1.velocity, ball2.velocity := exchanged.0, exchanged.1;
      }
      collisionsCount := collisionsCount + 1;
    }

    /**
     * `step` (index.js:291-327): spends the frame's `deltaTime` event by event.
     * Each round finds the next impact; if there is none, or it lies beyond the
     * remaining time, every ball is advanced by the remaining time and clamped
     * and the loop ends; otherwise every ball is advanced to the impact and
     * clamped, the impact is resolved and its time is spent. The loop also ends
     * once less than a thousandth of the frame is left. The debug information
     * is refreshed at the end: each ball's trace from before the frame gets
     * its new centre pushed once. The returned remaining time never exceeds the
     * frame and never goes negative once spending has started; the collision
     * counter never decreases.
     */
    method Step(deltaTime: real, width: real, height: real, sqrt: real -> real, fuel: nat) returns (ghost remaining: real)
      requires Valid()
      modifies this, balls
      ensures Valid() && balls == old(balls)
      ensures remaining <= deltaTime && (0.0 <= remaining || remaining == deltaTime)
      ensures old(collisionsCount) <= collisionsCount
      ensures TracesPushedUpTo(lastPositions, old(lastPositions), Centres(balls), |balls|)
      ensures DebugInfoCurrent(sqrt)
    {
      var remainingTime := deltaTime;
      var rounds := fuel;
      while remainingTime > 0.0 && rounds > 0
        invariant Valid() && balls == old(balls)
        invariant remainingTime <= deltaTime && (0.0 <= remainingTime || remainingTime == deltaTime)
        invariant old(collisionsCount) <= collisionsCount
        invariant lastPositions == old(lastPositions)
        decreases rounds
      {
        var spent := Round(remainingTime, width, height, sqrt);
        if spent.None? {
          break;
        }
        remainingTime := remainingTime - spent.value;
        if remainingTime < deltaTime * 0.001 {
          break;
        }
        rounds := rounds - 1;
      }
      UpdateDebugInfo(sqrt);
      remaining := remainingTime;
    }

    /**
     * One round of the loop of `step` (index.js:295-322): the next impact is
     * found; if there is none, or it lies beyond `budget`, every ball is
     * advanced by `budget` and clamped and the result is `None`; otherwise
     * every ball is advanced to the impact and clamped, the impact is resolved
     * and its time, which lies within the budget, is the result. The time
     * spent is that of the earliest prediction at the start of the round, so
     * impacts are handled in chronological order. Only a resolved impact can
     * raise the collision counter, and by one at most.
     */
    method Round(budget: real, width: real, height: real, sqrt: real -> real) returns (spent: Option<real>)
      requires Valid()
      modifies this, balls
      ensures Valid() && balls == old(balls)
      ensures spent.Some? ==> 0.0 <= spent.value <= budget
      ensures old(collisionsCount) <= collisionsCount <= old(collisionsCount) + 1
      ensures spent.None? ==> collisionsCount == old(collisionsCount)
      ensures minDistance == old(minDistance) && lastPositions == old(lastPositions)
      ensures spent.None? ==>
                forall s: Slot :: s.In(|balls|) && old(Event(s, width, height, sqrt)).Some? ==>
                  budget < old(Event(s, width, height, sqrt)).value.time
      ensures spent.None? ==>
                forall k :: 0 <= k < |balls| ==>
                  var b := balls[k];
                  && b.position == ClampPosition(old(b.PredictPosition(budget)), old(b.velocity), b.radius, b.restitution, width, height)
                  && b.velocity == ClampVelocity(old(b.PredictPosition(budget)), old(b.velocity), b.radius, b.restitution, width, height)
      ensures spent.Some? ==>
                && (exists s: Slot :: s.In(|balls|) && old(Event(s, width, height, sqrt)).Some? &&
                      old(Event(s, width, height, sqrt)).value.time == spent.value)
                && (forall s: Slot :: s.In(|balls|) && old(Event(s, width, height, sqrt)).Some? ==>
                      spent.value <= old(Event(s, width, height, sqrt)).value.time)
    {
      var nextCollision := FindNextCollision(width, height, sqrt);
      if nextCollision.None? || nextCollision.value.time > budget {
        AdvanceAll(budget, width, height);
        return None;
      }
      AdvanceAll(nextCollision.value.time, width, height);
      ResolveCollision(nextCollision.value, sqrt);
      spent := Some(nextCollision.value.time);
    }

    /**
     * What the debug information says after an update: one trace per ball, of
     * one to five points, ending with the ball's position; no minimum distance
     * with fewer than two balls, and otherwise the smallest distance between
     * two centres.
     */
    ghost predicate DebugInfoCurrent(sqrt: real -> real)
      reads this, balls
    {
      && TracesCurrent(lastPositions, Centres(balls))
      && IsMinimumDistance(minDistance, Centres(balls), Distance(sqrt))
    }

    /**
     * `updateDebugInfo` (index.js:350-392): each ball's trace gets its current
     * position (pushed, thinned when the last three points are collinear, cut
     * to five), and the minimum centre distance is recomputed over all pairs.
     */
    method UpdateDebugInfo(sqrt: real -> real)
      requires TracesValid()
      modifies this`lastPositions, this`minDistance
      ensures TracesValid()
      ensures TracesPushedUpTo(lastPositions, old(lastPositions), Centres(balls), |balls|)
      ensures DebugInfoCurrent(sqrt)
    {
      var centres := Centres(balls);
      var traces, closest := MeasureAll(centres, lastPositions, sqrt);
      lastPositions := traces;
      minDistance := closest;
      CentresUnchanged(balls);
    }

    /** `getBallsState` (index.js:395-401): the centre and radius of every ball, in order. */
    function GetBallsState(): (r: seq<BallView>)
      reads this, balls
      ensures |r| == |balls|
      ensures forall k :: 0 <= k < |balls| ==>
                r[k].x == balls[k].position.x && r[k].y == balls[k].position.y && r[k].radius == balls[k].radius
    {
      Views(balls)
    }
  }
}
