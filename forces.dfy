/**
 * The forces of the two scenes and the order in which bodies are stepped: the fixed
 * gravity-and-wind list of the standard scene (`SimStandard`), and the per-body list of
 * attractions rebuilt before every body's step in the planetarium (`SimPlanetarium`).
 */
module Forces {
  import opened Geometry
  import opened Bodies

  const Gravity: Vec := Vec(0.0, -9.8)
  const Wind: Vec := Vec(15.0, 0.0)
  /** The force list of the standard scene: gravity first, so that it acts unscaled by mass. */
  const StandardForces: seq<Vec> := [Gravity, Wind]

  /** The planetarium's pull constant, multiplied by the step length. */
  const PullFactor: real := 16666.0
  /** The restitution every body gets in the planetarium. */
  const PlanetRestitution: real := 0.000001

  /** Every body has a positive mass. */
  predicate Massive(bodies: seq<BodyState>)
  {
    forall k :: 0 <= k < |bodies| ==> bodies[k].mass > 0.0
  }

  // ---------------------------------------------------------------- standard scene

  /** One standard tick: every body updated with the same forces and clamped to the bounds. */
  function StandardStage(bodies: seq<BodyState>, forces: seq<Vec>, bounds: Rect, dt: real): (r: seq<BodyState>)
    requires Massive(bodies)
    ensures |r| == |bodies| && Massive(r)
    ensures forall k :: 0 <= k < |bodies| ==> r[k] == Advance(bodies[k], forces, bounds, dt, true)
  {
    seq(|bodies|, k requires 0 <= k < |bodies| => AdvanceKeeps(bodies[k], forces, bounds, dt, true);
                                                  Advance(bodies[k], forces, bounds, dt, true))
  }

  /**
   * After a standard tick every body keeps its mass and its flags, and every movable body
   * has a rollback position.
   */
  lemma StandardStageReady(bodies: seq<BodyState>, forces: seq<Vec>, bounds: Rect, dt: real)
    requires Massive(bodies)
    ensures var r := StandardStage(bodies, forces, bounds, dt);
      forall k :: 0 <= k < |r| ==>
        r[k].movable == bodies[k].movable && r[k].mass == bodies[k].mass &&
        (r[k].movable ==> r[k].lastPos.Some?)
  {
  }

  // ---------------------------------------------------------------- planetarium

  /**
   * Strength of the pull of a body of mass `m` at squared distance `d2`: `k m² / d²`, an
   * inverse-square law. Two coinciding bodies are given no pull.
   */
  function Pull(k: real, m: real, d2: real): (p: real)
    ensures d2 != 0.0 ==> p * d2 == k * (m * m)
    ensures d2 == 0.0 ==> p == 0.0
  {
    if d2 == 0.0 then 0.0 else k * (m * m) / d2
  }

  /**
   * The force on `from` towards `to`: the vector from one centre to the other, with its
   * magnitude set to the pull. `along(v, m)` stands for setting `v.Magnitude` to `m`.
   */
  function Attraction(from: BodyState, to: BodyState, k: real, along: (Vec, real) -> Vec): Vec
  {
    along(to.pos.Minus(from.pos), Pull(k, to.mass, DistSq(from.pos, to.pos)))
  }

  /** The attractions on body `i` from bodies `0 .. j-1`, skipping `i` itself, in index order. */
  function Attractions(bodies: seq<BodyState>, i: nat, k: real, along: (Vec, real) -> Vec, j: nat): (fs: seq<Vec>)
    requires i < |bodies| && j <= |bodies|
    ensures |fs| == if j <= i then j else j - 1
  {
    if j == 0 then []
    else
      Attractions(bodies, i, k, along, j - 1) +
      (if j - 1 != i then [Attraction(bodies[i], bodies[j - 1], k, along)] else [])
  }

  /** Entry `t` is the attraction of body `t` before `i`, and of body `t + 1` from `i` on. */
  lemma {:induction false} AttractionsIndex(bodies: seq<BodyState>, i: nat, k: real, along: (Vec, real) -> Vec, j: nat)
    requires i < |bodies| && j <= |bodies|
    ensures var fs := Attractions(bodies, i, k, along, j);
      && (forall t :: 0 <= t < j && t < i ==> fs[t] == Attraction(bodies[i], bodies[t], k, along))
      && (forall t :: i < t < j ==> fs[t - 1] == Attraction(bodies[i], bodies[t], k, along))
  {
    if j > 0 {
      AttractionsIndex(bodies, i, k, along, j - 1);
    }
  }

  /**
   * The force list of body `i`: a zero dummy first, so that the first force taken as an
   * acceleration adds nothing, then one attraction per other body. It has one entry per body.
   */
  function PlanetForces(bodies: seq<BodyState>, i: nat, k: real, along: (Vec, real) -> Vec): (fs: seq<Vec>)
    requires i < |bodies|
    ensures |fs| == |bodies| && fs[0] == Zero
  {
    [Zero] + Attractions(bodies, i, k, along, |bodies|)
  }

  /**
   * Body `i` is pulled by every other body exactly once: entry `t + 1` of its force list
   * is the attraction of body `t` for `t` before `i`, and entry `t` for `t` after `i`.
   */
  lemma PlanetForcesIndex(bodies: seq<BodyState>, i: nat, k: real, along: (Vec, real) -> Vec)
    requires i < |bodies|
    ensures var fs := PlanetForces(bodies, i, k, along);
      && (forall t :: 0 <= t < i ==> fs[t + 1] == Attraction(bodies[i], bodies[t], k, along))
      && (forall t :: i < t < |bodies| ==> fs[t] == Attraction(bodies[i], bodies[t], k, along))
  {
    var a := Attractions(bodies, i, k, along, |bodies|);
    AttractionsIndex(bodies, i, k, along, |bodies|);
    assert PlanetForces(bodies, i, k, along) == [Zero] + a;
    assert forall t :: 0 <= t < |a| ==> ([Zero] + a)[t + 1] == a[t];
  }

  /** The states once body `i` has had its restitution lowered. */
  function Lowered(bodies: seq<BodyState>, i: nat): (r: seq<BodyState>)
    requires i < |bodies|
    ensures |r| == |bodies| && (Massive(bodies) ==> Massive(r))
  {
    bodies[i := bodies[i].(restitution := PlanetRestitution)]
  }

  /** The forces body `i` is given on its turn, with its own restitution already lowered. */
  function TurnForces(bodies: seq<BodyState>, i: nat, dt: real, along: (Vec, real) -> Vec): (fs: seq<Vec>)
    requires i < |bodies|
    ensures |fs| == |bodies|
  {
    PlanetForces(Lowered(bodies, i), i, PullFactor * dt, along)
  }

  /**
   * Body `i` after its step: its restitution is lowered, its forces are computed from the
   * current states of all bodies, and it is updated without bounds.
   */
  function Stepped(bodies: seq<BodyState>, i: nat, bounds: Rect, dt: real, along: (Vec, real) -> Vec): (r: BodyState)
    requires i < |bodies| && Massive(bodies)
    ensures r.restitution == PlanetRestitution && r.mass == bodies[i].mass
    ensures r.movable == bodies[i].movable && (r.movable ==> r.lastPos.Some?)
  {
    var lowered := Lowered(bodies, i);
    var fs := TurnForces(bodies, i, dt, along);
    AdvanceKeeps(lowered[i], fs, bounds, dt, false);
    Advance(lowered[i], fs, bounds, dt, false)
  }

  /** The states after body `i` has taken its step; no other body changes. */
  function PlanetStep(bodies: seq<BodyState>, i: nat, bounds: Rect, dt: real, along: (Vec, real) -> Vec): (r: seq<BodyState>)
    requires i < |bodies| && Massive(bodies)
    ensures |r| == |bodies| && Massive(r)
    ensures forall t :: 0 <= t < |bodies| && t != i ==> r[t] == bodies[t]
    ensures r[i] == Stepped(bodies, i, bounds, dt, along)
  {
    bodies[i := Stepped(bodies, i, bounds, dt, along)]
  }

  /** The states after bodies `0 .. i-1` have taken their steps, one after the other. */
  function PlanetStage(bodies: seq<BodyState>, bounds: Rect, dt: real, along: (Vec, real) -> Vec, i: nat): (r: seq<BodyState>)
    requires i <= |bodies| && Massive(bodies)
    ensures |r| == |bodies| && Massive(r)
  {
    if i == 0 then bodies
    else PlanetStep(PlanetStage(bodies, bounds, dt, along, i - 1), i - 1, bounds, dt, along)
  }

  /** One more step of the sweep. */
  lemma StageUnfold(bodies: seq<BodyState>, bounds: Rect, dt: real, along: (Vec, real) -> Vec, i: nat)
    requires 0 < i <= |bodies| && Massive(bodies)
    ensures PlanetStage(bodies, bounds, dt, along, i) ==
      PlanetStep(PlanetStage(bodies, bounds, dt, along, i - 1), i - 1, bounds, dt, along)
  {
  }

  /**
   * Bodies that have not had their turn yet are untouched, and no step changes a body's
   * mass or whether it can move.
   */
  lemma {:induction false} StageKeeps(bodies: seq<BodyState>, bounds: Rect, dt: real,
                                      along: (Vec, real) -> Vec, i: nat)
    requires i <= |bodies| && Massive(bodies)
    ensures var r := PlanetStage(bodies, bounds, dt, along, i);
      && (forall t :: i <= t < |bodies| ==> r[t] == bodies[t])
      && (forall t :: 0 <= t < |bodies| ==> r[t].mass == bodies[t].mass && r[t].movable == bodies[t].movable)
  {
    if i > 0 {
      StageKeeps(bodies, bounds, dt, along, i - 1);
      StageUnfold(bodies, bounds, dt, along, i);
    }
  }

  /**
   * Stepping is sequential: once body `t` has taken its step, no later step touches it, so
   * the forces on body `i` see bodies `0 .. i-1` where their own steps left them and bodies
   * `i ..` where they started.
   */
  lemma {:induction false} StepsAreFinal(bodies: seq<BodyState>, bounds: Rect, dt: real,
                                         along: (Vec, real) -> Vec, i: nat, t: nat)
    requires t < i <= |bodies| && Massive(bodies)
    ensures PlanetStage(bodies, bounds, dt, along, i)[t] == PlanetStage(bodies, bounds, dt, along, t + 1)[t]
  {
    if i > t + 1 {
      StepsAreFinal(bodies, bounds, dt, along, i - 1, t);
      StageUnfold(bodies, bounds, dt, along, i);
    }
  }

  /**
   * After a full sweep every body has the planetarium restitution and every movable body a
   * rollback position.
   */
  lemma {:induction false} SweepDone(bodies: seq<BodyState>, bounds: Rect, dt: real,
                                     along: (Vec, real) -> Vec, i: nat)
    requires i <= |bodies| && Massive(bodies)
    ensures var r := PlanetStage(bodies, bounds, dt, along, i);
      forall t :: 0 <= t < i ==>
        r[t].restitution == PlanetRestitution && (r[t].movable ==> r[t].lastPos.Some?)
  {
    if i > 0 {
      SweepDone(bodies, bounds, dt, along, i - 1);
      StageUnfold(bodies, bounds, dt, along, i);
    }
  }
}
