# Colliding balls: event-driven stepping engine

This project models the simulation core of a small two-dimensional
billiard-ball toy (`index.js:1-402`). Balls move in a rectangular arena. They
bounce off the four walls and off each other.

The engine does not step with a fixed time increment. Instead each frame
(`step(deltaTime)`) is spent event by event:

1. Find the earliest upcoming impact: a ball reaching a wall, or two balls
   touching.
2. Advance every ball to that instant and clamp it into the arena.
3. Resolve the impact:
   - a wall reflects the velocity;
   - two balls are pushed apart if they overlap and exchange an impulse along
     the line of centres, using the smaller of their restitutions.
4. Spend the impact's time and repeat.

Alongside the physics, the engine keeps debug bookkeeping: a collision counter,
the smallest distance between two centres, and a short trace of recent
positions per ball.

Modules, following the source's classes:

- `Wrappers`: `Option`. It stands for the source's `null` results and its
  `Infinity` sentinels.
- `RealMath`: `Abs`, `Min`, the predicate `IsSqrt` that characterises a square
  root function, and small facts about products and squares.
- `Vectors`: the `Vector` class (`index.js:1-55`). It is a value, since every
  operation returns a new vector.
- `Balls`: the per-axis boundary clamp and the `Ball` class (`index.js:57-95`).
  Position and velocity are mutable fields; radius, mass and restitution are
  fixed.
- `Collisions`: time-of-impact prediction for walls and for pairs of balls
  (`index.js:142-234`), and the impact record as a datatype naming balls by
  index.
- `Response`: wall reflection, the impulse exchange and the overlap push-apart
  (`index.js:236-288`).
- `Engine`: the `PhysicsEngine` class (`index.js:97-401`). It covers the scan
  for the next impact, resolution, the sub-stepping loop, the debug update and
  `getBallsState`.

### Points to note

**The square root is a parameter.** `Math.sqrt` is passed in as `sqrt`, and
every property that depends on its meaning requires `IsSqrt(sqrt)`: the result
is non-negative and squares back to the argument.

**The arena size is a parameter.** The global canvas size is passed in as
`width` and `height`.

**Colliding balls are advanced twice.** In `step`, every ball is advanced to the
impact time `t` and clamped. `resolveCollision` then advances the balls involved
by `t` once more: by `collision.time` for a wall, and by
`collision.time - currentTime` for a pair. `currentTime` is `0` forever. The
model does exactly this:
- `AdvanceAll` followed by `ResolveCollision`;
- `ResolveCollision` states the colliding balls' new positions as
  `PredictPosition(time)` from the state `AdvanceAll` left behind.

A consequence is that a ball which reaches a wall is left partly outside the
arena. `WallImpactAdvancedTwice` states this for the low wall: the advance
leaves the ball just touching, which the clamp keeps, and the resolution then
pushes the centre a further `−v·t` past that point. `WallImpactExample` gives
one instance: a ball of radius 10 at `x = 20`, moving at `−100`, ends the round
with its centre at `x = 0`. With a frame of `0.1`, the guard at `index.js:322`
then ends the frame there.

**A pair that is already separating is still moved.** If the balls are
separating along the normal, `resolveCollision` returns early. The two balls
have already been moved, but the collision counter is not raised.
`ResolveCollision` states both outcomes.

**Wall ties go to the X wall.** When a ball reaches an X wall and a Y wall at
the same time, the X wall is reported. The Y candidate replaces the X candidate
only when it is strictly earlier (`index.js:168`, `:174`).

**Scan ties go to the first slot.** `findNextCollision` replaces its running
minimum only on a strictly earlier time. So among equally early impacts, the
first one in scan order wins: ball by ball, its walls and then its pairs `i < j`.
`FindNextCollision` states this with a ghost witness `best: Slot`.

**Traces are a sequence indexed by ball.** The source keys its trace `Map` by
the ball object. The model uses `lastPositions: seq<seq<Vector>>`, indexed like
`balls`, with a ball's trace created on its first debug update.
`minDistance == None` stands for `Infinity`.

## Model

| member | source | states |
|---|---|---|
| Vectors.Vector.Normalize | index.js:31-35 | a vector of zero length, in particular the zero vector, normalises to `(0, 0)` |
| Vectors.NormalizeUnit | index.js:31-35 | a non-zero vector normalises to a unit vector pointing the same way (positive dot product) and perpendicular to the vector's own perpendicular |
| Vectors.PerpendicularProperties | index.js:51-54 | `perpendicular` is orthogonal to the vector, keeps its length, and applied twice gives the negated vector |
| Vectors.ScaleProperties | index.js:15-17 | properties of `Vector.Scale`: scaling by one is the identity, scaling by zero gives `(0, 0)`, two scalings compose by multiplying the factors, and the squared length scales by the factor squared |
| Vectors.DotProperties | index.js:19-21 | properties of `Vector.Dot`: it is symmetric, a vector dotted with itself gives `lengthSquared`, it distributes over `add`, and it is zero against the zero vector |
| Vectors.Vector.Clone | index.js:47-49 | the clone equals the original vector; being a value, it shares nothing with it |
| Vectors.AddSubtractInverse | index.js:7-13 | subtracting undoes adding and adding undoes subtracting; `clone` yields an equal vector |
| Vectors.LengthSquaredPositive | index.js:27-29 | the squared length is non-negative, and positive for a non-zero vector |
| Vectors.LengthSquaredZero | index.js:27-29 | the squared length is zero exactly for the zero vector |
| Vectors.LengthIsRoot | index.js:23-25 | `length` is non-negative, squares to `lengthSquared`, and is zero exactly for the zero vector |
| Vectors.DistanceProperties | index.js:37-45 | distance and squared distance are symmetric, the squared distance is the squared length of the difference, and the distance is its non-negative root |
| Balls.ClampAxisProperties | index.js:79-85 | on one axis: in an arena at least a diameter wide the coordinate ends within `[r, bound − r]`; a ball past the low wall is placed on it moving inward, one past the high wall likewise moving inward, in both cases with speed scaled by the restitution; a ball inside is left alone |
| Balls.ClampKeepsInside | index.js:77-94 | with width and height at least a diameter, the clamped centre keeps the whole ball inside the arena, and a ball already inside keeps its position and velocity |
| Balls.Ball.constructor | index.js:58-71 | the new ball has the given centre, velocity, radius, mass and restitution; velocity defaults to `(0, 0)` and restitution to `1.0` |
| Balls.Ball.HandleCollisions | index.js:77-94 | the ball's new position and velocity are the per-axis clamp of the old ones, X then Y, low wall before high wall |
| Balls.Ball.PredictPosition | index.js:73-75 | predicting zero ahead, or predicting with zero velocity, gives the current position; `PredictPositionAdditive` states that predictions add up |
| Balls.PredictPositionAdditive | index.js:73-75 | predicting zero ahead stays put, and predicting `s` then `t` ahead equals predicting `s + t` ahead |
| Collisions.AxisHitExact | index.js:149-163 | the per-axis solve returns a time exactly when the ball's leading edge reaches the wall it moves toward at that non-negative time, and that time is the only such one |
| Collisions.PredictWallCollision | index.js:142-189 | a reported wall impact names the ball, has a non-negative time, and its normal is `(1,0)`, `(-1,0)`, `(0,1)` or `(0,-1)` opposite to the velocity on that axis |
| Collisions.PredictWallCollisionEarliest | index.js:142-189 | nothing is reported exactly when no wall is ever reached from now on; otherwise the reported wall is reached at the reported time, no wall is reached earlier, and on an X/Y tie the X wall is reported |
| Collisions.QuadraticFirstRoot | index.js:218-222 | for an upward parabola the root `(−b − √D)/2a` is a zero, the quadratic is positive before it, and positive on all `s ≥ 0` when `c > 0` and the root is negative |
| Collisions.QuadraticNoRoot | index.js:218-219 | with a negative discriminant an upward parabola has no zero |
| Collisions.SmallerRoot | index.js:218-222 | a reported root is never negative |
| Collisions.SmallerRootFirstZero | index.js:218-222 | for an upward parabola positive at 0, the reported root is its first zero, and when none is reported it stays positive from 0 on |
| Collisions.SeparationIsRelativeMotion | index.js:192-193 | the separation of the two predicted centres is the relative position moved by the relative velocity |
| Collisions.GapAlongIsQuadratic | index.js:195-201 | squared separation minus squared contact distance is the quadratic with `a = Δv·Δv`, `b = 2·Δp·Δv`, `c = Δp·Δp − (r1 + r2)²` |
| Collisions.GapAlongWhenStill | index.js:195-196 | with zero relative speed the gap never changes, so no impact can come |
| Collisions.GapAlongFirstZero | index.js:199-222 | for balls apart and moving relative to each other, the reported root is where the gap first closes, and with no root the gap never closes |
| Collisions.PredictCollision | index.js:191-234 | a reported pair impact names the two balls by index and has a non-negative time |
| Collisions.PredictCollisionWhenTouching | index.js:203-216 | for balls already touching or overlapping, an impact is reported exactly when they move relative to each other and approach, at time 0 with the normalised relative position as normal |
| Collisions.PredictCollisionApart | index.js:195-222 | for balls apart: nothing without relative motion; otherwise an impact exactly when the quadratic has a reported root, at that root |
| Collisions.PredictCollisionFirstContact | index.js:191-234 | for balls apart: at the reported time they touch exactly and are apart at every earlier moment; when nothing is reported they stay apart forever |
| Collisions.PredictCollisionNormal | index.js:224-233 | the normal of a reported pair impact is the unit vector along the line of centres at impact, from the first ball toward the second |
| Response.ReflectInvolution | index.js:241-247 | reflecting twice restores the velocity, and a reflection keeps the speed |
| Response.ReflectAcrossWall | index.js:241-247 | against an axis normal the reflection negates the component along the normal, keeps the one along the wall, and turns a ball moving into the wall away from it |
| Response.ImpulseScalarSolves | index.js:277-280 | the scalar impulse times the summed inverse masses is `−(1 + e)` times the relative normal velocity |
| Response.ImpulseAlongNormal | index.js:280-284 | each new velocity is the old one moved along the normal by impulse over mass, in opposite directions |
| Response.ImpulseConservesMomentum | index.js:276-284 | total momentum `m1·v1 + m2·v2` is unchanged by the exchange, for any normal and restitution |
| Response.ImpulseKeepsTangential | index.js:276-284 | both velocity components along the contact tangent are unchanged |
| Response.ImpulseRestitution | index.js:276-284 | with a unit normal the relative normal velocity afterwards is `−e` times what it was |
| Response.ImpulseConservesEnergyWhenElastic | index.js:276-284 | with `e = 1` and a unit normal, the total kinetic energy is unchanged |
| Response.PushApartKeepsMidpoint | index.js:263-274 | the push-apart moves both centres by opposite amounts, so the midpoint stays, and moves nothing when the overlap is within the threshold `0.0001` |
| Response.PushApartRestoresContact | index.js:263-274 | along the unit line of centres, pushing apart two balls that overlap by more than the threshold leaves them exactly touching |
| Engine.BeforeIsStrictOrder | index.js:118-136 | the scan order over walls and pairs `i < j` is a strict total order |
| Engine.SlotAfterWall | index.js:122-129 | in the scan, ball `i`'s walls come directly before its first pair |
| Engine.SlotAfterPair | index.js:129-136 | pair `(i, j)` comes directly before pair `(i, j + 1)` |
| Engine.SlotAfterRow | index.js:118-137 | ball `i`'s last pair comes directly before ball `i + 1`'s walls |
| Engine.WallEventTurnsBallBack | index.js:241-247 | a predicted wall impact has an axis normal, the ball is moving against it, and the reflection applied on resolution sends the ball away from the wall |
| Engine.WallImpactAdvancedTwice | index.js:309-316 | a ball reaching the low wall at `t > 0` is left touching it by the advance and clamp, then moved `t` further by the resolution at `index.js:239`, ending a distance `−v·t` past the touching position |
| Engine.WallImpactExample | index.js:297-322 | radius 10 at `x = 20`, speed `-100`, width 200: the wall is reached at `0.1` and the centre ends at `0` |
| Engine.TraceAfterPushBounded | index.js:356-380 | after one trace update a trace of at most five points has one to five points, ends with the new position, and holds only the new position and points it already held |
| Engine.TracesPushStep | index.js:353-380 | updating ball `i`'s trace extends the "first `i` traces updated" invariant to `i + 1` and leaves every other trace alone |
| Engine.PushedTracesCurrent | index.js:353-380 | once every ball's trace is updated, every ball has a trace of one to five points ending with its centre |
| Engine.Centres | index.js:353-354 | the centres are the balls' positions, in order |
| Engine.CentresUnchanged | index.js:350-392 | a state change that keeps every ball's position keeps the list of centres |
| Engine.TrackVisit | index.js:385-389 | folding pair `(i, j)`'s distance into the running minimum keeps it the smallest distance over the pairs measured so far, attained by one of them |
| Engine.TrackedSame | index.js:383-390 | two loop positions with the same pairs measured before them give the same running minimum |
| Engine.TrackedRowStart | index.js:383 | starting ball `i`'s row of pairs measures no new pair |
| Engine.TrackedRowEnd | index.js:383-391 | finishing ball `i`'s row is starting ball `i + 1`'s |
| Engine.TrackedAll | index.js:352-391 | once all pairs are measured, the running minimum is `None` exactly with fewer than two balls, and otherwise the distance of some pair that no pair undercuts |
| Engine.MeasureAll | index.js:352-391 | the debug loop gives every ball its updated trace (one to five points, ending at its centre) and the minimum pairwise centre distance |
| Engine.RecordPosition | index.js:356-380 | ball `i` gets a trace if it had none; its centre is pushed, the middle of three collinear last points dropped, and the oldest dropped beyond five |
| Engine.TrackRow | index.js:383-390 | the inner debug loop folds every pair `(i, j)`, `j > i`, into the running minimum |
| Engine.TrackPair | index.js:384-389 | one pass of that loop folds pair `(i, j)`'s distance into the running minimum |
| Engine.Views | index.js:395-400 | one view per ball, in order, holding its centre coordinates and radius |
| Engine.PhysicsEngine.GetBallsState | index.js:395-401 | one record per ball, in list order, holding its centre's coordinates and its radius |
| Engine.PhysicsEngine.constructor | index.js:98-106 | a new engine has no balls, no minimum distance, no traces, a zero counter, and satisfies the invariant |
| Engine.PhysicsEngine.Add | index.js:108-110 | the ball is appended to the list and the debug information is untouched |
| Engine.PhysicsEngine.FindNextCollision | index.js:113-140 | nothing exactly when every wall and pair prediction is empty; otherwise the prediction at some slot that no prediction undercuts, strictly earlier than every prediction scanned before it (first scanned wins ties); its time is non-negative and it names existing, distinct balls |
| Engine.PhysicsEngine.ScanRow | index.js:128-136 | scanning ball `i`'s pairs extends the scan invariant over all of them |
| Engine.PhysicsEngine.ScanPair | index.js:129-135 | taking pair `(i, j)` when strictly earlier extends the scan invariant past it |
| Engine.PhysicsEngine.ScanVisit | index.js:122-135 | taking the slot at the cursor only when strictly earlier keeps the first-scanned earliest prediction |
| Engine.PhysicsEngine.ScanSame | index.js:118-137 | two cursors with the same slots before them give the same scan invariant |
| Engine.PhysicsEngine.ScanDone | index.js:113-140 | the scan invariant after the last ball is the search's specification |
| Engine.PhysicsEngine.EnforceCanvasBounds | index.js:330-348 | the ball's new position and velocity are the per-axis clamp of the old ones, the same clamp as `handleCollisions` |
| Engine.PhysicsEngine.AdvanceAll | index.js:300-304 | every ball ends at the clamp of its position predicted `dt` ahead, with the clamped velocity; the invariant holds |
| Engine.PhysicsEngine.ResolveCollision | index.js:236-288 | a wall impact moves the ball to its predicted position and reflects its velocity. A pair impact moves both balls; if they separate along the normal nothing more happens and the counter stays; otherwise they are pushed apart and exchange the impulse with the smaller restitution. The counter rises by one. Uninvolved balls are untouched |
| Engine.PhysicsEngine.Round | index.js:295-322 | one round of the stepping loop. With no prediction within the budget, every ball is advanced by the budget and clamped, and the result is `None`. Otherwise the time spent is that of the earliest prediction at the start of the round, which is some prediction and lies within the budget, so impacts are handled in chronological order. The counter rises by at most one, and not at all when the result is `None`. The minimum distance and the traces are left untouched |
| Engine.PhysicsEngine.Step | index.js:291-327 | the invariant and the list of balls are kept; the remaining time never exceeds the frame and is never negative once spending starts; the counter never decreases; afterwards the minimum distance is that of the final positions, and each ball's trace is its trace from before the frame with its final centre pushed once |
| Engine.PhysicsEngine.UpdateDebugInfo | index.js:350-392 | every trace is the previous one (or none) with the ball's centre pushed; each has one to five points ending at the centre; the minimum distance is `None` with fewer than two balls, otherwise the smallest centre distance over all pairs |

## Left out

- Rendering, the DOM, canvas set-up and resizing, `draw`, `update`,
  `requestAnimationFrame` scheduling, scenario generation with `Math.random`,
  and the slider conversions: these are outside `index.js:1-402`.
- IEEE floating point: the model computes over exact reals, so rounding,
  overflow, `NaN` and `Infinity` arithmetic are not modelled.
- `Math.sqrt` is a parameter, characterised by `IsSqrt` where a property needs
  it. `Math.abs` and `Math.min` are defined exactly.
- The global canvas is read at `index.js:157`, `:173`, `:335` and `:344`. Its
  dimensions are parameters instead.
- Engine.PhysicsEngine.Step: takes a `fuel` bound on the number of rounds.
  - The source loop need not terminate, because zero-time impacts leave the
    remaining time unchanged, so the model stops after `fuel` rounds. The
    source would keep going.
  - The remaining time is returned as a ghost result so it can be stated.
  - The contract does not give the balls' final positions, which depend on how
    many rounds run. It states the invariant, the time budget and the counter.
    It ties the minimum distance to the final positions, and each trace to the
    trace from before the frame, through those final positions.
- Engine.PhysicsEngine.Round: when an impact is resolved, the contract does
  not give the balls' new states. Those states pass through three heaps: the
  one before the search, the one after the advance and clamp, and the one
  after resolution. `AdvanceAll` and `ResolveCollision`, which `Round` calls,
  each state their own step.
- Engine.PhysicsEngine.Add: requires a well-formed ball that is not already in
  the list. The source accepts any object, but the rest of the engine needs
  these two facts:
  - positive radius and mass, and restitution in `[0, 1]`;
  - each ball's state owned in one place.
- Object identity: impact records name balls by index, and traces are indexed
  by ball, not keyed by the ball object.
- Aliased velocity vectors: the source stores the caller's velocity object and
  mutates its components in place. The model treats a velocity as a value, so
  two balls sharing one velocity object, or a caller keeping a reference to it,
  are not modelled.
- Engine.PhysicsEngine.UpdateDebugInfo: computes the new traces and the new
  minimum on a snapshot of the centres and writes the two fields once. The
  source mutates each trace array in place.
  - Reading positions never changes them, so the resulting state is the same.
  - The intermediate states, and the `Infinity` written first at
    `index.js:352`, are not separately observable.
- The debug text formatting of the surrounding application is not part of this
  model.
