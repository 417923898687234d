# Newton: a verified model of the 2D physics engine

Newton is a small 2D physics sandbox. It holds a list of circular bodies. Each body's mass
doubles as its diameter. On every iteration of its simulation loop the engine:

- steps each body under a list of forces;
- clamps each body to the view and reflects it off the walls;
- resolves collisions between bodies in two passes. The first pass computes a candidate
  velocity for every movable body from the states at the start of the pass. Only then does
  the second pass write the velocities back, rolling each affected body back to the
  position it had before its last move.

There are two scenes:

- **Standard scene.** A random, non-overlapping layout under gravity and wind.
- **Planetarium.** A fixed sun and three planets. Each body in turn is pulled by all the
  others with an inverse-square law and is stepped before the next one's forces are
  computed.

Keyboard and mouse handlers change the zoom, the speed and the scene, and let the user drag
a body, which is pinned while it is held. The body a press drags is the last one the
pointer hovered over. The scene never forgets that body, not even across a rebuild, so a
press away from every body still drags it.

The project has seven modules:

- `Geometry`: vectors as cartesian pairs of reals, and rectangles.
- `Bodies`: a body as a value (`BodyState`) and as a class (`Body`) whose methods update
  its fields in place: `Update`, `CheckBoundsCollisions`, `Clone`, `Intersects`.
- `Clusters`: the collision gate, the recursive cluster search and the aggregation of a
  cluster into one equivalent body.
- `Collisions`: the two-pass collision resolution.
- `Placement`: the random standard layout as a function of the draws.
- `Forces`: the standard and planetarium stages as functions of the states.
- `Simulation`: the scene object `Common` as the class `Simulator`, with its handlers and
  one tick of its loop.

Every method that changes bodies is proved against a function on `BodyState` values.
Lemmas then state what those functions guarantee, for example:

- the trail is a capped FIFO;
- walls keep a body inside the view;
- a candidate that passes the placement test does not collide with any placed body;
- the combined collision velocity is the first candidate minus the sum of the later ones;
- a planetarium step never touches a body that has already taken its turn.

## Model

| member | source | states |
|---|---|---|
| Bodies.Fresh | NewtonEngine/Body2D.cs:48-64 | a new body is at (x, y) with the given mass, at rest, without acceleration or rollback point, movable, with restitution 0.8 and no trail |
| Bodies.Cloned | NewtonEngine/Body2D.cs:240-253 | a clone copies position, velocity, mass, restitution, movability, trail and trail cap, and starts with zero acceleration and no rollback point |
| Bodies.Trail | NewtonEngine/Body2D.cs:71-74 | the trail of one update; its properties are stated by `TrailIsCappedFifo` and `TrailDisabled` |
| Bodies.TrailIsCappedFifo | NewtonEngine/Body2D.cs:71-74 | with tracking on, the pre-move position is appended as the newest point, at most the oldest point is dropped, and the length never exceeds the cap plus one |
| Bodies.TrailDisabled | NewtonEngine/Body2D.cs:71-74 | with a cap of zero or less the trail is left untouched |
| Bodies.FieldAcceleration | NewtonEngine/Body2D.cs:77-80 | the acceleration after the loop over the forces; its closed form is stated by `AccelerationProtocol` |
| Bodies.AccelerationProtocol | NewtonEngine/Body2D.cs:77-80 | the accumulated acceleration equals the first force plus the sum of the later forces divided by the mass |
| Bodies.MirrorX | NewtonEngine/Body2D.cs:206-207 | the velocity after a side wall has its speed scaled by the restitution and its horizontal component reversed in sign, its vertical one kept in sign |
| Bodies.MirrorY | NewtonEngine/Body2D.cs:216-217 | the velocity after a top or bottom wall has its speed scaled by the restitution and its vertical component reversed in sign, its horizontal one kept in sign |
| Bodies.HitsLeft | NewtonEngine/Body2D.cs:204 | the left-wall test: the body's left edge, plus the tolerance, lies left of the bounds |
| Bodies.HitsRight | NewtonEngine/Body2D.cs:208 | the right-wall test: the body's right edge, minus the tolerance, lies right of the bounds |
| Bodies.HitsTop | NewtonEngine/Body2D.cs:214 | the top-wall test: the body's upper edge, minus the tolerance, lies beyond the bounds' bottom coordinate |
| Bodies.HitsBottom | NewtonEngine/Body2D.cs:218 | the bottom-wall test: the body's lower edge, plus the tolerance, lies below the bounds |
| Bodies.BounceX | NewtonEngine/Body2D.cs:204-212 | the horizontal half of the wall check; its effect is stated by `BounceXEffect` |
| Bodies.BounceY | NewtonEngine/Body2D.cs:214-222 | the vertical half of the wall check; its effect is stated by `BounceYEffect` |
| Bodies.WallBounce | NewtonEngine/Body2D.cs:203-223 | the horizontal then the vertical wall check; `WallBounceKeepsInside` states that it keeps the body inside |
| Bodies.BounceXEffect | NewtonEngine/Body2D.cs:204-212 | a left hit puts the body one radius right of the left edge and a right hit one radius left of the right edge; either way the height is kept and the speed is scaled; with no hit nothing changes, and only position and velocity ever change |
| Bodies.BounceYEffect | NewtonEngine/Body2D.cs:214-222 | the vertical counterpart: the top test wins over the bottom one, and the body is put one radius inside the wall it crossed |
| Bodies.WallBounceKeepsInside | NewtonEngine/Body2D.cs:203-223 | a body no wider than the bounds ends within the bounds, up to the 0.1 tolerance, on each axis; mass, trail and rollback point are kept |
| Bodies.Advance | NewtonEngine/Body2D.cs:70-87 | one update of a body's state: trail, acceleration, velocity, rollback point, move, walls; stated by `AdvanceMovable`, `AdvanceImmovable` and `AdvanceKeeps` |
| Bodies.AdvanceMovable | NewtonEngine/Body2D.cs:76-84 | a movable body takes the protocol acceleration (or keeps its old one when there are no forces), adds it to its velocity without `dt`, records its pre-move position and moves by velocity times `dt` |
| Bodies.AdvanceImmovable | NewtonEngine/Body2D.cs:70-87 | an immovable body that is not clamped only has its trail updated |
| Bodies.AdvanceKeeps | NewtonEngine/Body2D.cs:70-87 | an update keeps mass, restitution, movability and trail cap, and sets the rollback point exactly when the body is movable |
| Bodies.Body.constructor | NewtonEngine/Body2D.cs:53-64 | the new object's state is the fresh body |
| Bodies.Body.SetMass | NewtonEngine/Body2D.cs:40-47 | only the mass changes, and the radius becomes half of it |
| Bodies.Body.Update | NewtonEngine/Body2D.cs:70-87 | the new state is the pure one-tick update of the old state, and the mass stays positive |
| Bodies.Body.CheckBoundsCollisions | NewtonEngine/Body2D.cs:203-223 | the new state is the horizontal then vertical wall check of the old one |
| Bodies.Body.Intersects | NewtonEngine/Body2D.cs:233-238 | the point test holds exactly when the point is strictly closer to the centre than the radius |
| Bodies.Body.Clone | NewtonEngine/Body2D.cs:240-253 | the clone is a new object whose state is the cloned state |
| Clusters.ImpactGate | NewtonEngine/Body2D.cs:165-169 | the squared gate holds exactly when centre distance minus both radii is at most 1 |
| Clusters.CollidingSymmetric | NewtonEngine/Body2D.cs:165-169 | the gate does not depend on the order of the two bodies |
| Clusters.Colliding | NewtonEngine/Body2D.cs:96 | the impact gate `GetImpactVector(a, b).Magnitude <= minDistance` on squared distances; `ImpactGate` states the equivalence with the source's test |
| Clusters.Dedup | NewtonEngine/Body2D.cs:162 | the result has the same members, has no repetitions, and keeps the first element first |
| Clusters.GetCollidingBodies | NewtonEngine/Body2D.cs:147-163 | the cluster starts with the searched body, has no repetitions, holds only valid indices, contains every non-ignored body colliding with the start, and no ignored body other than the start; `ClusterIsReachable` states exactly which bodies it holds |
| Clusters.Scan | NewtonEngine/Body2D.cs:153-160 | the loop adds only valid, non-ignored bodies other than the start, and every remaining colliding body from `b2` on |
| Clusters.ClusterIsReachable | NewtonEngine/Body2D.cs:147-163 | a body is in the cluster of `b1` exactly when a chain of colliding bodies leads to it from `b1` without entering the ignore list: the transitive cluster |
| Clusters.ClusterSound | NewtonEngine/Body2D.cs:147-163 | every body the search returns is reached from `b1` by such a chain |
| Clusters.ScanSound | NewtonEngine/Body2D.cs:153-160 | every body the loop appends is reached from `b1` by a chain that avoids the loop's ignore list |
| Clusters.ClusterComplete | NewtonEngine/Body2D.cs:147-163 | the end of every chain from `b1` that avoids the ignore list is in the cluster, although the loop adds each searched body to the ignore list of the later searches |
| Clusters.ScanComplete | NewtonEngine/Body2D.cs:153-160 | a chain that starts at a not yet passed body colliding with `b1`, and then avoids `b1` and every body colliding with it, ends in a body the loop appends |

| Clusters.GatheredSums | NewtonEngine/Body2D.cs:129-138 | after `i` members the accumulator's mass and velocity are the sums over those members, everything else is the first member's clone, and the position total is the sum of their positions |
| Clusters.ClusterSum | NewtonEngine/Body2D.cs:125-145 | the equivalent body of a cluster; stated by `ClusterSumIsAggregate` |
| Clusters.ClusterSumIsAggregate | NewtonEngine/Body2D.cs:125-145 | the equivalent body has the total mass, the total velocity, the mean position, and the first member's restitution, movability and trail |
| Clusters.GetBodiesSum | NewtonEngine/Body2D.cs:125-145 | a new object whose state is the cluster's equivalent body |
| Collisions.Run2DCollision | NewtonEngine/Body2D.cs:171-201 | a velocity is produced exactly when the two bodies are within the impact gate, and it is the two-body formula's |
| Collisions.NoVelocityBeyondGate | NewtonEngine/Body2D.cs:172-200 | beyond the gate, whatever the distance, no velocity is produced |
| Collisions.ClusterBody | NewtonEngine/Body2D.cs:97-100 | the body `i` is tested against: body `j` when its cluster is `j` alone, otherwise the cluster's equivalent body |
| Collisions.Lookahead | NewtonEngine/Body2D.cs:104-105 | the test body: a clone advanced one step with the forces and without bounds |
| Collisions.Candidate | NewtonEngine/Body2D.cs:96-112 | the velocity the pair contributes: the formula on the test body against the cluster body when `i` and `j` collide, and none otherwise |
| Collisions.Accumulate | NewtonEngine/Body2D.cs:107-112 | one write to `newVels[i]`: the first velocity is stored, a later one is subtracted, a missing one changes nothing |
| Collisions.CombineAll | NewtonEngine/Body2D.cs:95-113 | `newVels[i]` after all candidates; stated by `CombineIsFirstMinusRest` |
| Collisions.Resolution | NewtonEngine/Body2D.cs:92-93 | an immovable body never receives a new velocity |
| Collisions.CombineIsFirstMinusRest | NewtonEngine/Body2D.cs:107-112 | storing the first candidate and subtracting every later one gives the first candidate minus the sum of the rest, or nothing when there are no candidates |
| Collisions.ResolutionIsFirstMinusRest | NewtonEngine/Body2D.cs:92-115 | a body gets a new velocity exactly when it is movable and has a candidate, and the velocity is its first candidate minus the sum of its later ones |
| Collisions.Applied | NewtonEngine/Body2D.cs:117-122 | without a new velocity the body is untouched; with one, it takes that velocity and returns to its rollback point, and nothing else changes |
| Collisions.Resolved | NewtonEngine/Body2D.cs:89-123 | every body receives its own resolution computed from the states at the start of the pass, and masses and rollback points stay ready for the next pass |
| Collisions.CollisionCandidate | NewtonEngine/Body2D.cs:96-112 | the inner step returns the candidate of the pair: the formula on a one-step-ahead clone of `i` against body `j` or its cluster's equivalent body |
| Collisions.ResolveBody | NewtonEngine/Body2D.cs:95-114 | the inner loop yields exactly the resolution of body `i` |
| Collisions.ResolveAll | NewtonEngine/Body2D.cs:90-115 | the first pass fills a new array of one entry per body with each body's resolution, computed from the unchanged states |
| Collisions.ApplyAll | NewtonEngine/Body2D.cs:117-122 | the second pass leaves every body in its applied state |
| Collisions.CheckBodiesCollisions | NewtonEngine/Body2D.cs:89-123 | the new states are the resolved old states |
| Forces.StandardStage | NewtonEngine/Common.cs:262-264 | each body is updated independently with the same forces and clamped, and masses stay positive |
| Forces.StandardStageReady | NewtonEngine/Common.cs:262-264 | after a standard stage every body keeps its mass and movability, and every movable body has a rollback point |
| Forces.Pull | NewtonEngine/Common.cs:279 | the pull times the squared distance is `k m²`; coinciding bodies get no pull |
| Forces.Attraction | NewtonEngine/Common.cs:277-279 | the force on one body towards another: the vector between the centres with its magnitude set to the pull |
| Forces.Attractions | NewtonEngine/Common.cs:275-282 | one attraction per other body among the first `j` |
| Forces.AttractionsIndex | NewtonEngine/Common.cs:275-282 | the attractions are in body order, skipping the body itself |
| Forces.PlanetForces | NewtonEngine/Common.cs:272-282 | the force list has one entry per body, and the first is the zero dummy |
| Forces.PlanetForcesIndex | NewtonEngine/Common.cs:272-282 | every other body pulls body `i` exactly once, at the position after the dummy that follows body order |
| Forces.Lowered | NewtonEngine/Common.cs:270 | lowering one body's restitution keeps the length and the positive masses |
| Forces.TurnForces | NewtonEngine/Common.cs:270-282 | a body's turn has one force per body |
| Forces.Stepped | NewtonEngine/Common.cs:270-283 | after its step a body has the planetarium restitution, its mass and movability, and a rollback point when movable |
| Forces.PlanetStep | NewtonEngine/Common.cs:269-284 | one body's step changes only that body |
| Forces.PlanetStage | NewtonEngine/Common.cs:269-284 | a sweep keeps the number of bodies and their positive masses |
| Forces.StageKeeps | NewtonEngine/Common.cs:269-284 | bodies that have not had their turn are untouched, and no step changes a mass or a movability |
| Forces.StepsAreFinal | NewtonEngine/Common.cs:269-284 | once a body has taken its step no later step touches it, so each body sees the earlier ones where their steps left them |
| Forces.SweepDone | NewtonEngine/Common.cs:269-284 | after the sweep every body that took its turn has the planetarium restitution, and every movable one a rollback point |
| Placement.DrawnMass | NewtonEngine/Common.cs:186 | a drawn mass lies in [20, 120) |
| Placement.CentreInView | NewtonEngine/Common.cs:187-188 | a drawn centre lies within half the bounds' extent of the origin on each axis |
| Placement.OutOfBounds | NewtonEngine/Common.cs:195-196 | the bounds test a candidate must not fail, with the source's four comparisons |
| Placement.Padded | NewtonEngine/Common.cs:190-193 | the candidate's rectangle extends one radius plus the 5-unit padding on every side of its centre |
| Placement.Keepout | NewtonEngine/Common.cs:200-205 | a placed body's rectangle, inflated by 5, extends one radius plus the padding on every side |
| Placement.KeepoutGap | NewtonEngine/Common.cs:199-213 | the two rectangles miss each other exactly when the bodies' squares are at least twice the padding apart along one axis |
| Placement.Clear | NewtonEngine/Common.cs:199-214 | no placed body's inflated square intersects the padded candidate; `ClearMeansApart` states what this guarantees |
| Placement.ClearMeansApart | NewtonEngine/Common.cs:190-213 | a candidate clear of a placed body does not collide with it |
| Placement.TopTestNeverFires | NewtonEngine/Common.cs:195-196 | for bounds at least 240 high the `y + mass > height` test never rejects a drawn candidate |
| Placement.Place | NewtonEngine/Common.cs:182-224 | the standard layout as a function of the draws; stated by `PlaceExtends`, `PlaceStep`, `PlaceSound` and `LayoutApart` |
| Placement.BodyCount | NewtonEngine/Common.cs:177 | the numbers of bodies `Random.Next(3, (int)Math.Sqrt(width))` returns |
| Placement.PlaceExtends | NewtonEngine/Common.cs:182-224 | the layout only appends to the bodies already placed and stops at `n` |
| Placement.PlaceStep | NewtonEngine/Common.cs:183-217 | each draw is taken when it passes both tests and skipped otherwise |
| Placement.PlaceSound | NewtonEngine/Common.cs:182-224 | every body the layout adds is a fresh body that passed both tests against the bodies before it, with a mass in [20, 120) |
| Placement.LayoutApart | NewtonEngine/Common.cs:182-224 | no two bodies of a layout built from scratch collide |
| Simulation.ViewBounds | NewtonEngine/Common.cs:379-394 | the bounds `SetBounds` computes; stated by `ViewBoundsFacts` |
| Simulation.ToWorld | NewtonEngine/Common.cs:304-306 | a mouse position in world coordinates: divided by the zoom, shifted by half the view, with y reversed |
| Simulation.ViewBoundsFacts | NewtonEngine/Common.cs:379-394 | the view's extent is the client size divided by the zoom, centred on the origin up to half a unit for odd sizes |
| Simulation.LastHit | NewtonEngine/Common.cs:312-322 | the hit, if any, is one of the scanned bodies |
| Simulation.LastHitIsLast | NewtonEngine/Common.cs:312-322 | the hit contains the point and no later body does; there is none exactly when no body contains the point |
| Simulation.PlanetariumLayout | NewtonEngine/Common.cs:243-252 | the fixed planetarium; stated by `PlanetariumFacts` |
| Simulation.PlanetariumFacts | NewtonEngine/Common.cs:243-252 | the planetarium is an immovable sun of mass 200 at rest at the origin and three movable planets of masses 30, 20 and 40 with 1000-point trails and the given polar velocities |
| Simulation.Attempt | NewtonEngine/Common.cs:184-215 | `isValid` holds exactly when the candidate passes the bounds test and is clear of every placed body |
| Simulation.DrawCandidate | NewtonEngine/Common.cs:183-217 | the retry loop returns an acceptable candidate and the layout continues from the next draw, or it runs out of draws and the layout is complete |
| Simulation.PlaceBodies | NewtonEngine/Common.cs:182-224 | the placed bodies are new, distinct objects whose states are the layout of the draws |
| Simulation.NewPlanet | NewtonEngine/Common.cs:245-246 | a new body with a 1000-point trail and the given velocity |
| Simulation.NewSun | NewtonEngine/Common.cs:243 | a new immovable body of mass 200 at the origin |
| Simulation.PlacePlanets | NewtonEngine/Common.cs:243-252 | four new, distinct bodies whose states are the planetarium layout |
| Simulation.Populate | NewtonEngine/Common.cs:174-255 | the standard scene is the layout with gravity then wind; the planetarium is its fixed layout with no fixed forces; every body is new, distinct and has a positive mass |
| Simulation.UpdateAll | NewtonEngine/Common.cs:263 | the new states are the standard stage of the old ones |
| Simulation.GatherForces | NewtonEngine/Common.cs:272-282 | the list built is the zero dummy followed by the attractions of the current states |
| Simulation.LowerRestitution | NewtonEngine/Common.cs:270 | only body `i`'s restitution changes |
| Simulation.PlanetTick | NewtonEngine/Common.cs:270-283 | the states after one turn are one planetarium step, and the force list holds that turn's forces |
| Simulation.PlanetSweep | NewtonEngine/Common.cs:269-284 | the states after the loop are the full sweep, and the force list holds the last body's forces, or is unchanged with no bodies |
| Simulation.HoverScan | NewtonEngine/Common.cs:312-322 | the body recorded is the last one containing the point, or the previous one when none does |
| Simulation.Staged | NewtonEngine/Common.cs:151-158 | either stage keeps the number of bodies and leaves them ready for the collision pass |
| Simulation.ForceList.constructor | NewtonEngine/Common.cs:28 | the force list starts empty |
| Simulation.Simulator.Limits | NewtonEngine/Common.cs:332-371 | the zoom stays within [0.1, 2] and the speed within [0.1, 10] |
| Simulation.Simulator.constructor | NewtonEngine/Common.cs:64-104 | a new scene in standard mode at zoom and speed 1, help shown, no drag, bounds from the window size, and the standard layout with gravity and wind |
| Simulation.Simulator.SetBounds | NewtonEngine/Common.cs:379-394 | the bounds follow the new window size at the current zoom, and the scene stays valid |
| Simulation.Simulator.CreateRandomObjects | NewtonEngine/Common.cs:165-260 | the scene of the current mode is rebuilt from new bodies, and the scene stays valid |
| Simulation.Simulator.ZoomIn | NewtonEngine/Common.cs:332-338 | the zoom grows by 0.1 while below 2, and the bounds follow |
| Simulation.Simulator.ZoomOut | NewtonEngine/Common.cs:339-345 | the zoom shrinks by 0.1 while above 0.1, and the bounds follow |
| Simulation.Simulator.SpeedUp | NewtonEngine/Common.cs:357-363 | the speed grows by 0.1 while below 10 |
| Simulation.Simulator.SlowDown | NewtonEngine/Common.cs:365-371 | the speed shrinks by 0.1 while above 0.1 |
| Simulation.Simulator.KeyUp | NewtonEngine/Common.cs:326-376 | each key changes only its own setting: zoom, speed, mode with rebuild, rebuild, or help; other keys change nothing; the drag flag, the remembered body, its saved movability and the window size are untouched, and the scene stays valid |
| Simulation.Simulator.MouseDown | NewtonEngine/Common.cs:291-298 | with a remembered body (the last one hovered, wherever the pointer is now) a drag of it starts, its movability is saved and it is pinned; only before any hover does no drag start |
| Simulation.Simulator.MouseUp | NewtonEngine/Common.cs:299-302 | the drag ends and the remembered body receives the last saved movability, which is not its own when no drag pinned it |
| Simulation.Simulator.MouseMove | NewtonEngine/Common.cs:303-325 | while dragging, the held body moves to the pointer's world position; otherwise the body under the pointer becomes the last body containing it, or stays when none does |
| Simulation.Simulator.SimStandard | NewtonEngine/Common.cs:262-264 | the new states are the standard stage with the scene's force list |
| Simulation.Simulator.SimPlanetarium | NewtonEngine/Common.cs:266-285 | the new states are the sweep of the old ones, and the force list is left holding the last body's forces |
| Simulation.Simulator.Stage | NewtonEngine/Common.cs:151-158 | the states after the mode's stage, and the mode is unchanged |
| Simulation.Simulator.Tick | NewtonEngine/Common.cs:151-160 | one loop iteration: the collision pass on the staged states, and the scene stays valid |

## Left out

- The simulation loop's timing is not modelled: the ticks clock, the 5 ms timer, the frame
  counter and `Invalidate`. Its step `dt` (elapsed time over the tick factor, times the
  speed) is a parameter of `Simulator.Tick`.
- Concurrency is not modelled. The loop runs on its own task, racing the UI handlers, and
  `CreateRandomObjects` waits 15 ms for it. Each handler and each tick is modelled as
  running alone.
- Rendering is not modelled: `Paint`, `Render`, colours and brushes, the title bar, the
  help font and the cursor shape.
- The `Vector` and `PointD` types of the ray-casting library are not part of this model.
  Vectors are cartesian pairs of reals.
- Collisions.Run2DCollision: the trigonometric two-body formula is the parameter `elastic`.
  The contract fixes when a velocity is produced, not its value.
- Collisions.Run2DCollision: the impact distance is read as the signed difference of centre
  distance and radii, so overlapping bodies collide.
- Forces.Attraction: setting a vector's magnitude is the parameter `along`.
- Simulation.PlanetariumLayout: the polar `Vector` constructor is the parameter `polar`, so
  the planets' velocities are stated as `polar(magnitude, degrees)`.
- Forces.Pull: two coinciding bodies get a pull of 0. The source divides by a zero squared
  distance, and reals have no infinity.
- Floating point is not modelled: float rounding, the `(float)` casts of the rectangles,
  and the `0.1f` steps of zoom and speed. Simulation.Simulator.Limits and the key methods
  use exact steps of 0.1.
- Placement.Place: the random generator is a finite sequence of `NextDouble` draws. Where
  the source would keep retrying without end, Simulation.PlaceBodies and
  Simulation.Simulator.CreateRandomObjects place fewer bodies once the draws run out.
  Colour draws are not modelled.
- Simulation.Simulator.constructor: the body count is a parameter satisfying
  `BodyCount`, the range `Random.Next(3, (int)Math.Sqrt(width))` returns from. Window
  widths below 9, where that call throws, are excluded by the precondition.
- The Eto build tests placement overlap with `Intersects` instead of `IntersectsWith`.
  Only the `IntersectsWith` form is modelled.
- Bodies.Body.Update requires a positive mass, which every scene guarantees. The source
  would divide by a zero mass.
- The trail keeps `HistorySize + 1` points, because the code removes one only when the
  count exceeds the cap. The code is followed.
- Simulation.PlanetTick: `forces.Clear()` followed by the `Add` calls is one assignment of
  the finished list.
- Collisions.ResolveAll: the new velocities are collected in a sequence and then copied
  into the fresh `newVels` array. They are written in the same order as the source writes
  them.
- The body list is a `seq<Body>` field that `CreateRandomObjects` reassigns, instead of a
  list cleared in place. The force list is a shared object, as in the source.
- The window's `Closing` and `SizeChanged` wiring is not modelled. `SetBounds` takes the
  new size as parameters.
