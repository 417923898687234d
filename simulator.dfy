/**
 * The scene that drives the engine (`Common`): the list of bodies and the force list it
 * steps, the bounds derived from the window size and the zoom, the keyboard handling of
 * zoom, speed and mode, the drag handling that pins a body while it is held, and one
 * iteration of the simulation loop.
 */
module Simulation {
  import opened Geometry
  import opened Bodies
  import opened Clusters
  import opened Collisions
  import opened Placement
  import opened Forces

  datatype Mode = Standard | Planetarium

  /** The keys the scene reacts to; every other key is `Other`. */
  datatype Key = Add | Subtract | Enter | Space | Period | Comma | F1 | Other

  /** Increment of the zoom and the speed per key press. */
  const Step: real := 0.1
  const MaxScale: real := 2.0
  const MinScale: real := 0.1
  const MaxSpeed: real := 10.0
  const MinSpeed: real := 0.1
  /** Trail length of the three planets. */
  const PlanetTrail: int := 1000

  // ---------------------------------------------------------------- view

  /** The value `n` steps of 0.1 away from 1. */
  function Notch(n: int): real
  {
    1.0 + n as real / 10.0
  }

  /**
   * `SetBounds`: the client rectangle placed with its corner at minus half its size (half
   * by integer division), then inflated on every side by its size times
   * `(1 - scale) * (0.5 / scale)`.
   */
  function ViewBounds(width: nat, height: nat, scale: real): (b: Rect)
    requires scale > 0.0
  {
    var client := Rect(-(width / 2) as real, -(height / 2) as real, width as real, height as real);
    var s := (1.0 - scale) * (0.5 / scale);
    client.Inflate(client.width * s, client.height * s)
  }

  /**
   * The view's extent is the client size divided by the zoom, and its centre lies on the
   * origin for an even size and half a unit off it for an odd one, at any zoom.
   */
  lemma ViewBoundsFacts(width: nat, height: nat, scale: real)
    requires scale > 0.0
    ensures var b := ViewBounds(width, height, scale);
      && b.width == width as real / scale && b.height == height as real / scale
      && b.x + b.width / 2.0 == width as real / 2.0 - (width / 2) as real
      && b.y + b.height / 2.0 == height as real / 2.0 - (height / 2) as real
  {
  }

  /** A mouse position in window pixels, in world coordinates (y grows upwards). */
  function ToWorld(x: real, y: real, scale: real, bounds: Rect): Vec
    requires scale > 0.0
  {
    Vec(x / scale - bounds.width / 2.0, bounds.height / 2.0 - y / scale)
  }

  /** Whether `p` lies strictly inside body `s`. */
  predicate Inside(s: BodyState, p: Vec)
  {
    DistSq(s.pos, p) < s.Radius() * s.Radius()
  }

  /**
   * The body the pointer is over among the first `n`: the LAST one containing the point,
   * since the hover scan records every hit and goes on to the end of the list.
   */
  function LastHit(bodies: seq<BodyState>, p: Vec, n: nat): (r: Option<nat>)
    requires n <= |bodies|
    ensures r.Some? ==> r.value < n
  {
    if n == 0 then None
    else if Inside(bodies[n - 1], p) then Some(n - 1)
    else LastHit(bodies, p, n - 1)
  }

  /**
   * The hit is a body among the first `n` that contains the point, and no later one
   * does; there is no hit exactly when none of them contains it.
   */
  lemma {:induction false} LastHitIsLast(bodies: seq<BodyState>, p: Vec, n: nat)
    requires n <= |bodies|
    ensures var r := LastHit(bodies, p, n);
      && (r.Some? ==> r.value < n && Inside(bodies[r.value], p))
      && (r.Some? ==> forall k :: r.value < k < n ==> !Inside(bodies[k], p))
      && (r.None? <==> forall k :: 0 <= k < n ==> !Inside(bodies[k], p))
  {
    if n > 0 && !Inside(bodies[n - 1], p) {
      LastHitIsLast(bodies, p, n - 1);
    }
  }

  // ---------------------------------------------------------------- layouts

  /**
   * The fixed planetarium; `polar(magnitude, degrees)` stands for the polar `Vector`
   * constructor.
   */
  function PlanetariumLayout(polar: (real, real) -> Vec): seq<BodyState>
  {
    [Fresh(200.0, 0.0, 0.0).(movable := false),
     Fresh(30.0, 700.0, 0.0).(historySize := PlanetTrail, vel := polar(200.0, 90.0)),
     Fresh(20.0, 0.0, -500.0).(historySize := PlanetTrail, vel := polar(200.0, 0.0)),
     Fresh(40.0, -500.0, 0.0).(historySize := PlanetTrail, vel := polar(220.0, 290.0))]
  }

  /**
   * The planetarium has an immovable sun of mass 200 at rest at the origin and three
   * movable planets of masses 30, 20 and 40 with trails of 1000 points, set going with the
   * polar velocities (200, 90°), (200, 0°) and (220, 290°); no body has a rollback position.
   */
  lemma PlanetariumFacts(polar: (real, real) -> Vec)
    ensures var r := PlanetariumLayout(polar);
      && |r| == 4 && Massive(r)
      && r[0].mass == 200.0 && r[1].mass == 30.0 && r[2].mass == 20.0 && r[3].mass == 40.0
      && !r[0].movable && r[0].pos == Zero && r[0].vel == Zero && r[0].historySize == 0
      && r[1].vel == polar(200.0, 90.0) && r[2].vel == polar(200.0, 0.0) && r[3].vel == polar(220.0, 290.0)
      && (forall k :: 1 <= k < 4 ==> r[k].movable && r[k].historySize == PlanetTrail)
      && (forall k :: 0 <= k < 4 ==> r[k].history == [] && r[k].lastPos == None)
  {
  }

  /** Every draw of a draw sequence is a `NextDouble` result. */
  predicate UnitDraws(draws: seq<Draw>)
  {
    forall k :: 0 <= k < |draws| ==> UnitDraw(draws[k])
  }

  // ---------------------------------------------------------------- building a scene

  /**
   * `isValid` for one candidate: the bounds test, then the padded rectangle against every
   * body already placed, stopping at the first overlap.
   */
  method Attempt(placed: seq<Body>, mass: real, c: Vec, bounds: Rect) returns (isValid: bool)
    ensures isValid <==> Acceptable(States(placed), mass, c, bounds)
  {
    isValid := true;
    var r := Padded(mass, c);
    if OutOfBounds(mass, c, bounds) {
      isValid := false;
    } else {
      var j := 0;
      while j < |placed|
        invariant 0 <= j <= |placed|
        invariant isValid <==> Clear(States(placed)[..j], mass, c)
        invariant isValid
      {
        var rp := Rect(placed[j].pos.x - placed[j].mass / 2.0, placed[j].pos.y - placed[j].mass / 2.0,
                       placed[j].mass, placed[j].mass);
        rp := rp.Inflate(Padding, Padding);
        if rp.IntersectsWith(r) {
          isValid := false;
          break;
        }
        j := j + 1;
      }
      assert States(placed)[..|placed|] == States(placed);
    }
  }

  /** The bodies placed so far, with the candidate once one has been found. */
  function Pending(placed: seq<BodyState>, found: bool, mass: real, c: Vec): seq<BodyState>
  {
    if found then placed + [Fresh(mass, c.x, c.y)] else placed
  }

  /**
   * The retry loop for one body: draws are taken from `from` on until one passes
   * `Attempt`, or until they run out. Skipping the rejected draws is exactly what the
   * layout `Place` does.
   */
  method DrawCandidate(placed: seq<Body>, draws: seq<Draw>, from: nat, count: nat, bounds: Rect)
    returns (found: bool, mass: real, c: Vec, next: nat)
    requires from <= |draws| && |placed| < count
    ensures from <= next <= |draws|
    ensures found ==> Acceptable(States(placed), mass, c, bounds)
    ensures found ==> Place(draws[from..], bounds, States(placed), count) ==
                      Place(draws[next..], bounds, States(placed) + [Fresh(mass, c.x, c.y)], count)
    ensures !found ==> next == |draws| && Place(draws[from..], bounds, States(placed), count) == States(placed)
  {
    found := false;
    mass := 0.0;
    c := Zero;
    next := from;
    ghost var S := States(placed);
    while !found && next < |draws|
      invariant from <= next <= |draws|
      invariant found ==> Acceptable(S, mass, c, bounds)
      invariant Place(draws[from..], bounds, S, count) == Place(draws[next..], bounds, Pending(S, found, mass, c), count)
      decreases |draws| - next
    {
      mass := DrawnMass(draws[next]);
      c := DrawnCentre(draws[next], bounds);
      PlaceStep(draws, next, bounds, S, count);
      found := Attempt(placed, mass, c, bounds);
      next := next + 1;
    }
  }

  /** The standard layout: `count` new bodies, each found by its own retry loop. */
  method PlaceBodies(draws: seq<Draw>, count: nat, bounds: Rect) returns (placed: seq<Body>)
    ensures forall k :: 0 <= k < |placed| ==> fresh(placed[k])
    ensures DistinctBodies(placed)
    ensures States(placed) == Place(draws, bounds, [], count)
  {
    placed := [];
    var i := 0;
    var next := 0;
    while i < count
      invariant 0 <= next <= |draws| && i <= count
      invariant forall k :: 0 <= k < |placed| ==> fresh(placed[k])
      invariant DistinctBodies(placed)
      invariant Place(draws[next..], bounds, States(placed), count) == Place(draws, bounds, [], count)
      invariant |placed| <= i && (|placed| < i ==> next == |draws|)
    {
      var found, mass, c;
      found, mass, c, next := DrawCandidate(placed, draws, next, count, bounds);
      if found {
        var b := new Body(mass, c.x, c.y);
        StatesAppend(placed, b);
        DistinctAppend(placed, b);
        placed := placed + [b];
      }
      i := i + 1;
    }
    assert draws[|draws|..] == [];
  }

  /** A planet: a new body with a long trail, set going with a polar velocity. */
  method NewPlanet(mass: real, x: real, y: real, velocity: Vec) returns (b: Body)
    ensures fresh(b)
    ensures b.State() == Fresh(mass, x, y).(historySize := PlanetTrail, vel := velocity)
  {
    b := new Body(mass, x, y);
    b.historySize := PlanetTrail;
    b.vel := velocity;
  }

  /** The sun: a new body that does not move. */
  method NewSun() returns (b: Body)
    ensures fresh(b)
    ensures b.State() == Fresh(200.0, 0.0, 0.0).(movable := false)
  {
    b := new Body(200.0, 0.0, 0.0);
    b.movable := false;
  }

  /** The planetarium layout, as new bodies. */
  method PlacePlanets(polar: (real, real) -> Vec) returns (placed: seq<Body>)
    ensures forall k :: 0 <= k < |placed| ==> fresh(placed[k])
    ensures DistinctBodies(placed)
    ensures States(placed) == PlanetariumLayout(polar)
  {
    var sun := NewSun();
    var b1 := NewPlanet(30.0, 700.0, 0.0, polar(200.0, 90.0));
    var b2 := NewPlanet(20.0, 0.0, -500.0, polar(200.0, 0.0));
    var b3 := NewPlanet(40.0, -500.0, 0.0, polar(220.0, 290.0));
    placed := [sun, b1, b2, b3];
  }

  /**
   * The scene `CreateRandomObjects` builds, as new bodies and a force list: the random
   * layout with gravity and wind in the standard scene, the sun and its three planets
   * with no fixed forces in the planetarium.
   */
  method Populate(mode: Mode, draws: seq<Draw>, count: int, bounds: Rect, polar: (real, real) -> Vec)
    returns (placed: seq<Body>, items: seq<Vec>)
    requires mode == Standard ==> UnitDraws(draws) && count >= 0
    ensures forall k :: 0 <= k < |placed| ==> fresh(placed[k])
    ensures DistinctBodies(placed) && Massive(States(placed))
    ensures mode == Standard ==> States(placed) == Place(draws, bounds, [], count) && items == StandardForces
    ensures mode == Planetarium ==> States(placed) == PlanetariumLayout(polar) && items == []
  {
    items := [];
    match mode {
      case Standard =>
        placed := PlaceBodies(draws, count, bounds);
        PlaceSound(draws, bounds, [], count);
        items := items + [Gravity];
        items := items + [Wind];
      case Planetarium =>
        placed := PlacePlanets(polar);
        PlanetariumFacts(polar);
    }
  }

  // ---------------------------------------------------------------- stepping

  /** The loop of `SimStandard`: every body updated in turn, clamped to the bounds. */
  method UpdateAll(bodies: seq<Body>, forces: seq<Vec>, bounds: Rect, dt: real)
    requires DistinctBodies(bodies) && Massive(States(bodies))
    modifies bodies
    ensures States(bodies) == StandardStage(old(States(bodies)), forces, bounds, dt)
  {
    ghost var s0 := States(bodies);
    var i := 0;
    while i < |bodies|
      invariant 0 <= i <= |bodies|
      invariant forall k :: 0 <= k < i ==> bodies[k].State() == Advance(s0[k], forces, bounds, dt, true)
      invariant forall k :: i <= k < |bodies| ==> bodies[k].State() == s0[k]
    {
      bodies[i].Update(forces, bounds, dt, true);
      i := i + 1;
    }
  }

  /**
   * The inner loop of `SimPlanetarium`: the zero dummy, then the attraction of every other
   * body on body `i`, the vector between the centres with its magnitude set to the pull.
   */
  method GatherForces(bodies: seq<Body>, i: nat, k: real, along: (Vec, real) -> Vec) returns (fs: seq<Vec>)
    requires i < |bodies|
    ensures fs == PlanetForces(States(bodies), i, k, along)
  {
    fs := [Zero];
    var j := 0;
    while j < |bodies|
      invariant 0 <= j <= |bodies|
      invariant fs == [Zero] + Attractions(States(bodies), i, k, along, j)
    {
      if i != j {
        var d := bodies[j].pos.Minus(bodies[i].pos);
        fs := fs + [along(d, Pull(k, bodies[j].mass, d.NormSq()))];
      }
      j := j + 1;
    }
  }

  /** The first statement of a body's turn: its restitution set to the planetarium's. */
  method LowerRestitution(bodies: seq<Body>, i: nat)
    requires DistinctBodies(bodies) && i < |bodies|
    modifies bodies[i]
    ensures States(bodies) == Lowered(old(States(bodies)), i)
  {
    bodies[i].restitution := PlanetRestitution;
  }

  /** One body's turn in `SimPlanetarium`: its restitution, its forces, its update. */
  method PlanetTick(bodies: seq<Body>, forces: ForceList, i: nat, bounds: Rect, dt: real,
                    along: (Vec, real) -> Vec)
    requires DistinctBodies(bodies) && Massive(States(bodies)) && i < |bodies|
    modifies bodies, forces
    ensures States(bodies) == PlanetStep(old(States(bodies)), i, bounds, dt, along)
    ensures forces.items == TurnForces(old(States(bodies)), i, dt, along)
  {
    LowerRestitution(bodies, i);
    var fs := GatherForces(bodies, i, PullFactor * dt, along);
    forces.items := fs;
    bodies[i].Update(forces.items, bounds, dt, false);
  }

  /** The loop of `SimPlanetarium`: the bodies take their turns in list order. */
  method PlanetSweep(bodies: seq<Body>, forces: ForceList, bounds: Rect, dt: real, along: (Vec, real) -> Vec)
    requires DistinctBodies(bodies) && Massive(States(bodies))
    modifies bodies, forces
    ensures States(bodies) == PlanetStage(old(States(bodies)), bounds, dt, along, |bodies|)
    ensures |bodies| > 0 ==>
      forces.items == TurnForces(PlanetStage(old(States(bodies)), bounds, dt, along, |bodies| - 1), |bodies| - 1, dt, along)
    ensures |bodies| == 0 ==> forces.items == old(forces.items)
  {
    ghost var s0 := States(bodies);
    var i := 0;
    while i < |bodies|
      invariant 0 <= i <= |bodies|
      invariant States(bodies) == PlanetStage(s0, bounds, dt, along, i)
      invariant i > 0 ==> forces.items == TurnForces(PlanetStage(s0, bounds, dt, along, i - 1), i - 1, dt, along)
      invariant i == 0 ==> forces.items == old(forces.items)
    {
      PlanetTick(bodies, forces, i, bounds, dt, along);
      StageUnfold(s0, bounds, dt, along, i + 1);
      i := i + 1;
    }
  }

  /**
   * The hover scan of `MouseMove`: every body containing `p` is recorded in turn, so the
   * last one wins; with none, the body recorded before stays.
   */
  method HoverScan(bodies: seq<Body>, p: Vec, current: Body?) returns (over: Body?)
    ensures match LastHit(States(bodies), p, |bodies|)
      case Some(k) => over == bodies[k]
      case None => over == current
  {
    over := current;
    var j := 0;
    while j < |bodies|
      invariant 0 <= j <= |bodies|
      invariant match LastHit(States(bodies), p, j)
        case Some(k) => over == bodies[k]
        case None => over == current
    {
      if bodies[j].Intersects(p) {
        over := bodies[j];
      }
      j := j + 1;
    }
  }

  /**
   * The states after one stage of `mode`: the standard update of every body with the
   * force list, or the planetarium's sweep. Either way every body keeps its mass and every
   * movable body has a rollback position, so the collision pass can run on the result.
   */
  function Staged(mode: Mode, bodies: seq<BodyState>, forces: seq<Vec>, bounds: Rect, dt: real,
                  along: (Vec, real) -> Vec): (r: seq<BodyState>)
    requires Massive(bodies)
    ensures |r| == |bodies| && Ready(r)
  {
    match mode
    case Standard =>
      StandardStageReady(bodies, forces, bounds, dt);
      StandardStage(bodies, forces, bounds, dt)
    case Planetarium =>
      SweepDone(bodies, bounds, dt, along, |bodies|);
      StageKeeps(bodies, bounds, dt, along, |bodies|);
      PlanetStage(bodies, bounds, dt, along, |bodies|)
  }

  // ---------------------------------------------------------------- the scene

  /** The scene's force list: one list object, cleared and refilled in place. */
  class ForceList {
    var items: seq<Vec>

    constructor ()
      ensures items == []
    {
      items := [];
    }
  }

  class Simulator {
    var bodies: seq<Body>
    const forces: ForceList
    var bounds: Rect
    /** The size of the window's client area, which `SetBounds` reads. */
    var clientWidth: nat
    var clientHeight: nat
    var overBody: Body?
    var overBodyCanMove: bool
    var isDragging: bool
    var mode: Mode
    var scale: real
    var simSpeed: real
    var showHelp: bool
    /** Key presses that have moved the zoom and the speed away from 1, net. */
    ghost var zoomSteps: int
    ghost var speedSteps: int

    /** The settings: zoom and speed on their grids, bounds in step with them. */
    ghost predicate Settings()
      reads this
    {
      && scale == Notch(zoomSteps) && -9 <= zoomSteps <= 10
      && simSpeed == Notch(speedSteps) && -9 <= speedSteps <= 90
      && bounds == ViewBounds(clientWidth, clientHeight, scale)
      && (isDragging ==> overBody != null)
    }

    /** The settings, and a scene the engine can step. */
    ghost predicate Valid()
      reads this, bodies, forces
    {
      && Settings()
      && DistinctBodies(bodies)
      && Massive(States(bodies))
      && (mode == Standard ==> forces.items == StandardForces)
    }

    /** The zoom and the speed stay within their limits. */
    lemma Limits()
      requires Settings()
      ensures MinScale <= scale <= MaxScale && MinSpeed <= simSpeed <= MaxSpeed
    {
    }

    /**
     * A new scene in standard mode: bounds from the window size, then a random layout.
     */
    constructor (width: nat, height: nat, draws: seq<Draw>, count: int, polar: (real, real) -> Vec)
      requires UnitDraws(draws) && BodyCount(count, width as real)
      ensures Valid() && mode == Standard && showHelp && !isDragging && overBody == null
      ensures scale == 1.0 && simSpeed == 1.0
      ensures bounds == ViewBounds(width, height, 1.0)
      ensures States(bodies) == Place(draws, bounds, [], count) && forces.items == StandardForces
    {
      bodies := [];
      forces := new ForceList();
      clientWidth := width;
      clientHeight := height;
      overBody := null;
      overBodyCanMove := false;
      isDragging := false;
      mode := Standard;
      scale := 1.0;
      simSpeed := 1.0;
      showHelp := true;
      zoomSteps := 0;
      speedSteps := 0;
      bounds := ViewBounds(width, height, 1.0);
      new;
      CreateRandomObjects(draws, count, polar);
    }

    /** `SetBounds`, after the window has been resized to `width` x `height`. */
    method SetBounds(width: nat, height: nat)
      requires Valid()
      modifies this`bounds, this`clientWidth, this`clientHeight
      ensures Valid()
      ensures clientWidth == width && clientHeight == height
      ensures bounds == ViewBounds(width, height, scale)
    {
      clientWidth := width;
      clientHeight := height;
      bounds := ViewBounds(width, height, scale);
    }

    /**
     * `CreateRandomObjects`: the lists are cleared and the scene of the current mode is
     * built. In standard mode `count` bodies are drawn from `draws` (fewer if the draws run
     * out) and the force list is gravity then wind; in planetarium mode the fixed layout is
     * built and the force list stays empty.
     */
    method CreateRandomObjects(draws: seq<Draw>, count: int, polar: (real, real) -> Vec)
      requires Settings()
      requires mode == Standard ==> UnitDraws(draws) && BodyCount(count, bounds.width)
      modifies this`bodies, forces
      ensures Valid()
      ensures forall k :: 0 <= k < |bodies| ==> fresh(bodies[k])
      ensures mode == Standard ==> States(bodies) == Place(draws, bounds, [], count) && forces.items == StandardForces
      ensures mode == Planetarium ==> States(bodies) == PlanetariumLayout(polar) && forces.items == []
    {
      var placed, items := Populate(mode, draws, count, bounds, polar);
      bodies := placed;
      forces.items := items;
    }

    // ---------------------------------------------------------------- keyboard

    /** `+`: one zoom step in, up to the largest zoom, and the bounds follow. */
    method ZoomIn()
      requires Valid()
      modifies this`scale, this`zoomSteps, this`bounds
      ensures Valid()
      ensures scale == if old(scale) < MaxScale then old(scale) + Step else old(scale)
    {
      if scale < MaxScale {
        scale := scale + Step;
        zoomSteps := zoomSteps + 1;
        bounds := ViewBounds(clientWidth, clientHeight, scale);
      }
    }

    /** `-`: one zoom step out, down to the smallest zoom, and the bounds follow. */
    method ZoomOut()
      requires Valid()
      modifies this`scale, this`zoomSteps, this`bounds
      ensures Valid()
      ensures scale == if old(scale) > MinScale then old(scale) - Step else old(scale)
    {
      if scale > MinScale {
        scale := scale - Step;
        zoomSteps := zoomSteps - 1;
        bounds := ViewBounds(clientWidth, clientHeight, scale);
      }
    }

    /** `.`: one speed step up, to the highest speed. */
    method SpeedUp()
      requires Valid()
      modifies this`simSpeed, this`speedSteps
      ensures Valid()
      ensures simSpeed == if old(simSpeed) < MaxSpeed then old(simSpeed) + Step else old(simSpeed)
    {
      if simSpeed < MaxSpeed {
        simSpeed := simSpeed + Step;
        speedSteps := speedSteps + 1;
      }
    }

    /** `,`: one speed step down, to the lowest speed. */
    method SlowDown()
      requires Valid()
      modifies this`simSpeed, this`speedSteps
      ensures Valid()
      ensures simSpeed == if old(simSpeed) > MinSpeed then old(simSpeed) - Step else old(simSpeed)
    {
      if simSpeed > MinSpeed {
        simSpeed := simSpeed - Step;
        speedSteps := speedSteps - 1;
      }
    }

    /**
     * The `KeyUp` handler: zoom, rebuild, switch the mode and rebuild, speed, help. A
     * rebuild into the standard scene draws `count` bodies from `draws`.
     */
    method KeyUp(key: Key, draws: seq<Draw>, count: int, polar: (real, real) -> Vec)
      requires Valid()
      requires key == Enter && mode == Standard ==> UnitDraws(draws) && BodyCount(count, bounds.width)
      requires key == Space && mode == Planetarium ==> UnitDraws(draws) && BodyCount(count, bounds.width)
      modifies this`scale, this`zoomSteps, this`bounds, this`simSpeed, this`speedSteps
      modifies this`mode, this`bodies, this`showHelp, forces
      ensures Valid()
      ensures key == Add ==> scale == (if old(scale) < MaxScale then old(scale) + Step else old(scale))
      ensures key == Subtract ==> scale == (if old(scale) > MinScale then old(scale) - Step else old(scale))
      ensures key != Add && key != Subtract ==> scale == old(scale) && bounds == old(bounds)
      ensures key == Period ==> simSpeed == (if old(simSpeed) < MaxSpeed then old(simSpeed) + Step else old(simSpeed))
      ensures key == Comma ==> simSpeed == (if old(simSpeed) > MinSpeed then old(simSpeed) - Step else old(simSpeed))
      ensures key != Period && key != Comma ==> simSpeed == old(simSpeed)
      ensures key == Space ==> mode != old(mode)
      ensures key != Space ==> mode == old(mode)
      ensures key == F1 ==> showHelp == !old(showHelp)
      ensures key != F1 ==> showHelp == old(showHelp)
      ensures key != Enter && key != Space ==> bodies == old(bodies) && forces.items == old(forces.items)
      ensures (key == Enter || key == Space) && mode == Standard ==>
        States(bodies) == Place(draws, bounds, [], count) && forces.items == StandardForces
      ensures (key == Enter || key == Space) && mode == Planetarium ==>
        States(bodies) == PlanetariumLayout(polar) && forces.items == []
      ensures isDragging == old(isDragging) && overBody == old(overBody) && overBodyCanMove == old(overBodyCanMove)
      ensures clientWidth == old(clientWidth) && clientHeight == old(clientHeight)
    {
      match key {
        case Add => ZoomIn();
        case Subtract => ZoomOut();
        case Enter => CreateRandomObjects(draws, count, polar);
        case Space =>
          mode := if mode == Standard then Planetarium else Standard;
          CreateRandomObjects(draws, count, polar);
        case Period => SpeedUp();
        case Comma => SlowDown();
        case F1 => showHelp := !showHelp;
        case Other =>
      }
    }

    // ---------------------------------------------------------------- mouse

    /**
     * The `MouseDown` handler. The body remembered in `overBody` is the last one the pointer
     * hovered over, wherever the pointer is now (`MouseMove` never clears it, and a rebuild
     * keeps it). If there is one, a drag of it starts, its movability is saved and it is
     * pinned; only before any hover does no drag start.
     */
    method MouseDown()
      requires Valid()
      modifies this`isDragging, this`overBodyCanMove, overBody
      ensures Valid()
      ensures old(overBody) != null ==>
        isDragging && overBodyCanMove == old(overBody.movable) &&
        overBody.State() == old(overBody.State()).(movable := false)
      ensures old(overBody) == null ==> !isDragging && overBodyCanMove == old(overBodyCanMove)
    {
      if overBody != null {
        isDragging := true;
        overBodyCanMove := overBody.movable;
        overBody.movable := false;
      } else {
        isDragging := false;
      }
    }

    /**
     * The `MouseUp` handler: the drag ends and the remembered body receives the saved flag.
     * That body need not be the one a drag pinned: after a press with no drag, a hover
     * while the button is held and a release, it receives whatever flag was saved last.
     */
    method MouseUp()
      requires Valid()
      modifies this`isDragging, overBody
      ensures Valid() && !isDragging
      ensures overBody != null ==> overBody.State() == old(overBody.State()).(movable := overBodyCanMove)
    {
      isDragging := false;
      if overBody != null {
        overBody.movable := overBodyCanMove;
      }
    }

    /**
     * The `MouseMove` handler at window pixel (`x`, `y`). While dragging, the held body is
     * moved to the pointer; otherwise the pointer is over the last body that contains it,
     * and over the same body as before when none does.
     */
    method MouseMove(x: real, y: real)
      requires Valid()
      modifies this`overBody, overBody
      ensures Valid()
      ensures old(isDragging) ==>
        (overBody == old(overBody) &&
         overBody.State() == old(overBody.State()).(pos := ToWorld(x, y, scale, bounds)))
      ensures !old(isDragging) ==>
        (old(overBody) != null ==> unchanged(old(overBody))) &&
        match LastHit(States(bodies), ToWorld(x, y, scale, bounds), |bodies|)
        case Some(k) => overBody == bodies[k]
        case None => overBody == old(overBody)
    {
      Limits();
      var p := ToWorld(x, y, scale, bounds);
      if isDragging {
        overBody.pos := p;
      } else {
        overBody := HoverScan(bodies, p, overBody);
      }
    }

    // ---------------------------------------------------------------- the loop

    /** `SimStandard`: every body updated with the force list and clamped to the bounds. */
    method SimStandard(dt: real)
      requires Valid()
      modifies bodies
      ensures Valid()
      ensures States(bodies) == StandardStage(old(States(bodies)), forces.items, bounds, dt)
    {
      UpdateAll(bodies, forces.items, bounds, dt);
    }

    /**
     * `SimPlanetarium`: the bodies take their steps one after the other, each with its
     * restitution lowered and with the attractions of all the others where they are at
     * that moment. The force list is left holding the last body's forces.
     */
    method SimPlanetarium(dt: real, along: (Vec, real) -> Vec)
      requires Valid() && mode == Planetarium
      modifies forces, bodies
      ensures Valid()
      ensures States(bodies) == PlanetStage(old(States(bodies)), bounds, dt, along, |bodies|)
      ensures |bodies| > 0 ==>
        forces.items == TurnForces(PlanetStage(old(States(bodies)), bounds, dt, along, |bodies| - 1), |bodies| - 1, dt, along)
      ensures |bodies| == 0 ==> forces.items == old(forces.items)
    {
      PlanetSweep(bodies, forces, bounds, dt, along);
    }

    /** The stage of the current mode, as the simulation loop's `switch` picks it. */
    method Stage(dt: real, along: (Vec, real) -> Vec)
      requires Valid()
      modifies forces, bodies
      ensures Valid() && mode == old(mode)
      ensures States(bodies) == Staged(mode, old(States(bodies)), old(forces.items), bounds, dt, along)
    {
      match mode {
        case Standard => SimStandard(dt);
        case Planetarium => SimPlanetarium(dt, along);
      }
    }

    /**
     * One iteration of the simulation loop with step `dt` (the elapsed time already scaled
     * by the speed): the scene's stage, then the collision pass with the current force list.
     */
    method Tick(dt: real, elastic: (BodyState, BodyState) -> Vec, along: (Vec, real) -> Vec)
      requires Valid()
      modifies forces, bodies
      ensures Valid()
      ensures States(bodies) ==
        Resolved(Staged(mode, old(States(bodies)), old(forces.items), bounds, dt, along), forces.items, dt, elastic)
    {
      ghost var staged := Staged(mode, States(bodies), forces.items, bounds, dt, along);
      Stage(dt, along);
      assert States(bodies) == staged;
      CheckBodiesCollisions(bodies, forces.items, dt, elastic);
    }
  }
}
