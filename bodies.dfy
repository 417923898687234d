/**
 * A circular body (`Body2D`): its state as a value, the per-tick update and the wall
 * collisions as functions on that value, and the class whose methods update the same
 * fields in place.
 */
module Bodies {
  import opened Geometry

  /** Tolerance of the wall checks. */
  const Epsilon: real := 0.1
  /** Restitution a new body starts with. */
  const DefaultRestitution: real := 0.8

  /**
   * Everything a body carries that the physics reads or writes. `lastPos` is absent until
   * the first update of a movable body, as the source leaves that field null.
   */
  datatype BodyState = BodyState(
    pos: Vec,
    vel: Vec,
    acc: Vec,
    lastPos: Option<Vec>,
    mass: real,
    restitution: real,
    movable: bool,
    history: seq<Vec>,
    historySize: int)
  {
    /** The mass doubles as the diameter; the source caches half of it as `m2`. */
    function Radius(): real { mass / 2.0 }
  }

  /** A body as the three-argument constructor leaves it. */
  function Fresh(mass: real, x: real, y: real): (s: BodyState)
    ensures s.pos == Vec(x, y) && s.mass == mass
    ensures s.vel == Zero && s.acc == Zero && s.lastPos == None
    ensures s.movable && s.restitution == DefaultRestitution
    ensures s.history == [] && s.historySize == 0
  {
    BodyState(Vec(x, y), Zero, Zero, None, mass, DefaultRestitution, true, [], 0)
  }

  /** What `Clone` copies: everything but the acceleration and the rollback position. */
  function Cloned(s: BodyState): (c: BodyState)
    ensures c.pos == s.pos && c.vel == s.vel && c.mass == s.mass
    ensures c.restitution == s.restitution && c.movable == s.movable
    ensures c.history == s.history && c.historySize == s.historySize
    ensures c.acc == Zero && c.lastPos == None
  {
    Fresh(s.mass, s.pos.x, s.pos.y).(movable := s.movable, restitution := s.restitution,
                                      vel := s.vel, historySize := s.historySize,
                                      history := s.history)
  }

  // ---------------------------------------------------------------- trail history

  /** The trail after one update: the oldest point is dropped once the list is over the cap. */
  function Trail(s: BodyState): seq<Vec>
  {
    if s.historySize > 0 then
      (if |s.history| > s.historySize then s.history[1..] else s.history) + [s.pos]
    else
      s.history
  }

  /**
   * With tracking on, the pre-move position becomes the newest point, the rest is the old
   * trail with at most its oldest point removed, and the length settles at one MORE than
   * `historySize`.
   */
  lemma TrailIsCappedFifo(s: BodyState)
    requires s.historySize > 0 && |s.history| <= s.historySize + 1
    ensures |Trail(s)| == if |s.history| == s.historySize + 1 then s.historySize + 1
                          else |s.history| + 1
    ensures |Trail(s)| <= s.historySize + 1
    ensures Trail(s)[|Trail(s)| - 1] == s.pos
    ensures Trail(s)[..|Trail(s)| - 1] == s.history ||
            Trail(s)[..|Trail(s)| - 1] == s.history[1..]
  {
  }

  /** With tracking off the trail is untouched. */
  lemma TrailDisabled(s: BodyState)
    requires s.historySize <= 0
    ensures Trail(s) == s.history
  {
  }

  // ---------------------------------------------------------------- acceleration protocol

  /**
   * The acceleration after the loop over the first `i` forces: the first force is taken as
   * an acceleration already, every later one is divided by the mass and added.
   */
  function FieldAcceleration(forces: seq<Vec>, mass: real, i: nat): Vec
    requires 1 <= i <= |forces| && mass != 0.0
  {
    if i == 1 then forces[0] else FieldAcceleration(forces, mass, i - 1).Plus(forces[i - 1].Over(mass))
  }

  /** The protocol in closed form: `forces[0] + (sum of the later forces) / mass`. */
  lemma {:induction false} AccelerationProtocol(forces: seq<Vec>, mass: real, i: nat)
    requires 1 <= i <= |forces| && mass != 0.0
    ensures FieldAcceleration(forces, mass, i) == forces[0].Plus(VecSum(forces[1..i]).Over(mass))
  {
    if i == 1 {
      assert forces[1..1] == [];
    } else {
      AccelerationProtocol(forces, mass, i - 1);
      assert forces[1..i] == forces[1..i - 1] + [forces[i - 1]];
      VecSumAppend(forces[1..i - 1], forces[i - 1]);
      var a := VecSum(forces[1..i - 1]);
      var f := forces[i - 1];
      QuotientOfSum(a.x, f.x, mass);
      QuotientOfSum(a.y, f.y, mass);
    }
  }

  lemma QuotientOfSum(a: real, b: real, m: real)
    requires m != 0.0
    ensures (a + b) / m == a / m + b / m
  {
  }

  // ---------------------------------------------------------------- wall collisions

  /** Velocity after a left or right wall: angle 180° - θ, then magnitude scaled by `k`. */
  function MirrorX(v: Vec, k: real): (r: Vec)
    ensures r.NormSq() == k * k * v.NormSq()
    ensures k >= 0.0 ==> r.x * v.x <= 0.0 && r.y * v.y >= 0.0
  {
    ScaledSquares(v.x, k);
    ScaledSquares(v.y, k);
    Vec(-v.x * k, v.y * k)
  }

  /** Velocity after a top or bottom wall: angle 360° - θ, then magnitude scaled by `k`. */
  function MirrorY(v: Vec, k: real): (r: Vec)
    ensures r.NormSq() == k * k * v.NormSq()
    ensures k >= 0.0 ==> r.x * v.x >= 0.0 && r.y * v.y <= 0.0
  {
    ScaledSquares(v.x, k);
    ScaledSquares(v.y, k);
    Vec(v.x * k, -v.y * k)
  }

  /** The arithmetic behind the two reflections. */
  lemma ScaledSquares(a: real, k: real)
    ensures (a * k) * (a * k) == k * k * (a * a)
    ensures (-a * k) * (-a * k) == k * k * (a * a)
    ensures k >= 0.0 ==> (a * k) * a >= 0.0 && (-a * k) * a <= 0.0
  {
  }

  predicate HitsLeft(s: BodyState, b: Rect) { s.pos.x - s.Radius() + Epsilon < b.x }

  predicate HitsRight(s: BodyState, b: Rect) { s.pos.x + s.Radius() - Epsilon > b.Right() }

  predicate HitsTop(s: BodyState, b: Rect) { s.pos.y + s.Radius() - Epsilon > b.Bottom() }

  predicate HitsBottom(s: BodyState, b: Rect) { s.pos.y - s.Radius() + Epsilon < b.y }

  /** The horizontal half of the wall check: left wins over right. */
  function BounceX(s: BodyState, b: Rect): BodyState
  {
    if HitsLeft(s, b) then
      s.(pos := Vec(b.x + s.Radius(), s.pos.y), vel := MirrorX(s.vel, s.restitution))
    else if HitsRight(s, b) then
      s.(pos := Vec(b.Right() - s.Radius(), s.pos.y), vel := MirrorX(s.vel, s.restitution))
    else
      s
  }

  /** The vertical half of the wall check: top wins over bottom. */
  function BounceY(s: BodyState, b: Rect): BodyState
  {
    if HitsTop(s, b) then
      s.(pos := Vec(s.pos.x, b.Bottom() - s.Radius()), vel := MirrorY(s.vel, s.restitution))
    else if HitsBottom(s, b) then
      s.(pos := Vec(s.pos.x, b.y + s.Radius()), vel := MirrorY(s.vel, s.restitution))
    else
      s
  }

  /** `CheckBoundsCollisions`: the horizontal check, then the vertical one on its result. */
  function WallBounce(s: BodyState, b: Rect): BodyState
  {
    BounceY(BounceX(s, b), b)
  }

  /**
   * What a horizontal hit does: the body is put exactly one radius inside the wall it
   * crossed, its height is kept, its speed is scaled by the restitution and its horizontal
   * motion is reversed; without a hit nothing changes.
   */
  lemma BounceXEffect(s: BodyState, b: Rect)
    ensures var r := BounceX(s, b);
      && r.pos.y == s.pos.y
      && r == s.(pos := r.pos, vel := r.vel)
      && (HitsLeft(s, b) ==> r.pos.x == b.x + s.Radius())
      && (!HitsLeft(s, b) && HitsRight(s, b) ==> r.pos.x == b.Right() - s.Radius())
      && (HitsLeft(s, b) || HitsRight(s, b) ==>
            r.vel.NormSq() == s.restitution * s.restitution * s.vel.NormSq()
            && (s.restitution >= 0.0 ==> r.vel.x * s.vel.x <= 0.0))
      && (!HitsLeft(s, b) && !HitsRight(s, b) ==> r == s)
  {
  }

  /** The vertical counterpart of `BounceXEffect`. */
  lemma BounceYEffect(s: BodyState, b: Rect)
    ensures var r := BounceY(s, b);
      && r.pos.x == s.pos.x
      && r == s.(pos := r.pos, vel := r.vel)
      && (HitsTop(s, b) ==> r.pos.y == b.Bottom() - s.Radius())
      && (!HitsTop(s, b) && HitsBottom(s, b) ==> r.pos.y == b.y + s.Radius())
      && (HitsTop(s, b) || HitsBottom(s, b) ==>
            r.vel.NormSq() == s.restitution * s.restitution * s.vel.NormSq()
            && (s.restitution >= 0.0 ==> r.vel.y * s.vel.y <= 0.0))
      && (!HitsTop(s, b) && !HitsBottom(s, b) ==> r == s)
  {
  }

  /** A body no wider than the bounds ends up within the bounds, up to the tolerance. */
  lemma WallBounceKeepsInside(s: BodyState, b: Rect)
    ensures var r := WallBounce(s, b);
      && (b.width >= s.mass ==>
            b.x + s.Radius() - Epsilon <= r.pos.x <= b.Right() - s.Radius() + Epsilon)
      && (b.height >= s.mass ==>
            b.y + s.Radius() - Epsilon <= r.pos.y <= b.Bottom() - s.Radius() + Epsilon)
      && r.mass == s.mass && r.history == s.history && r.lastPos == s.lastPos
  {
  }

  // ---------------------------------------------------------------- one tick

  /** `Update`: trail, acceleration, velocity, rollback point, move, then the walls. */
  function Advance(s: BodyState, forces: seq<Vec>, bounds: Rect, dt: real, constrain: bool): BodyState
    requires s.mass > 0.0
  {
    var tracked := s.(history := Trail(s));
    var moved :=
      if s.movable then
        var a := if |forces| > 0 then FieldAcceleration(forces, s.mass, |forces|) else s.acc;
        var v := s.vel.Plus(a);
        tracked.(acc := a, vel := v, lastPos := Some(s.pos), pos := s.pos.Plus(v.Times(dt)))
      else
        tracked;
    if constrain then WallBounce(moved, bounds) else moved
  }

  /**
   * A movable body: the acceleration follows the force protocol (or is kept when there are
   * no forces), the velocity grows by it without `dt`, the rollback point is the pre-move
   * position and the move is the new velocity times `dt`.
   */
  lemma AdvanceMovable(s: BodyState, forces: seq<Vec>, bounds: Rect, dt: real)
    requires s.mass > 0.0 && s.movable
    ensures var r := Advance(s, forces, bounds, dt, false);
      && r.acc == (if |forces| > 0 then forces[0].Plus(VecSum(forces[1..]).Over(s.mass)) else s.acc)
      && r.vel == s.vel.Plus(r.acc)
      && r.lastPos == Some(s.pos)
      && r.pos == s.pos.Plus(r.vel.Times(dt))
      && r.history == Trail(s)
      && r.mass == s.mass && r.restitution == s.restitution && r.movable
  {
    if |forces| > 0 {
      AccelerationProtocol(forces, s.mass, |forces|);
      assert forces[1..|forces|] == forces[1..];
    }
  }

  /** An immovable body that is not clamped keeps its position, velocity and acceleration. */
  lemma AdvanceImmovable(s: BodyState, forces: seq<Vec>, bounds: Rect, dt: real)
    requires s.mass > 0.0 && !s.movable
    ensures var r := Advance(s, forces, bounds, dt, false);
      r == s.(history := Trail(s))
  {
  }

  /**
   * An update never changes the mass, the restitution, the flags or the trail cap; the
   * trail is `Trail(s)`, and a movable body records its pre-move position for rollback
   * while an immovable one keeps whatever it had.
   */
  lemma AdvanceKeeps(s: BodyState, forces: seq<Vec>, bounds: Rect, dt: real, constrain: bool)
    requires s.mass > 0.0
    ensures var r := Advance(s, forces, bounds, dt, constrain);
      && r.mass == s.mass && r.restitution == s.restitution
      && r.movable == s.movable && r.historySize == s.historySize
      && r.history == Trail(s)
      && r.lastPos == (if s.movable then Some(s.pos) else s.lastPos)
  {
  }

  /** `a / m < 1` is `a < m` for a positive square `m`, and a zero `m` fails both sides. */
  lemma QuotientBelowOne(a: real, m: real)
    requires a >= 0.0 && m >= 0.0
    ensures (m != 0.0 && a / m < 1.0) <==> a < m
  {
  }

  // ---------------------------------------------------------------- the class

  /** A body whose fields the engine updates in place. */
  class Body {
    var pos: Vec
    var vel: Vec
    var acc: Vec
    var lastPos: Option<Vec>
    var mass: real
    var restitution: real
    var movable: bool
    var history: seq<Vec>
    var historySize: int

    function State(): BodyState
      reads this
    {
      BodyState(pos, vel, acc, lastPos, mass, restitution, movable, history, historySize)
    }

    ghost predicate Valid()
      reads this
    {
      mass > 0.0
    }

    function Radius(): real
      reads this
    {
      mass / 2.0
    }

    constructor (mass: real, x: real, y: real)
      ensures State() == Fresh(mass, x, y)
    {
      pos := Vec(x, y);
      vel := Zero;
      acc := Zero;
      lastPos := None;
      this.mass := mass;
      restitution := DefaultRestitution;
      movable := true;
      history := [];
      historySize := 0;
    }

    /** The `Mass` setter; the radius follows it. */
    method SetMass(value: real)
      modifies this
      ensures State() == old(State()).(mass := value)
      ensures Radius() == value / 2.0
    {
      mass := value;
    }

    /** One tick of this body. */
    method Update(forces: seq<Vec>, bounds: Rect, deltaTime: real, constrainToBounds: bool)
      requires Valid()
      modifies this
      ensures Valid()
      ensures State() == Advance(old(State()), forces, bounds, deltaTime, constrainToBounds)
    {
      ghost var s0 := State();
      if historySize > 0 {
        if |history| > historySize {
          history := history[1..];
        }
        history := history + [pos];
      }
      assert State() == s0.(history := Trail(s0));

      if movable {
        if |forces| > 0 {
          var a := forces[0];
          var i := 1;
          while i < |forces|
            invariant 1 <= i <= |forces|
            invariant a == FieldAcceleration(forces, mass, i)
          {
            a := a.Plus(forces[i].Over(mass));
            i := i + 1;
          }
          acc := a;
        }
        vel := vel.Plus(acc);
        lastPos := Some(pos);
        pos := pos.Plus(vel.Times(deltaTime));
      }
      assert State() == Advance(s0, forces, bounds, deltaTime, false);

      if constrainToBounds {
        CheckBoundsCollisions(bounds);
      }
    }

    /** Clamps the body to the bounds and reflects its velocity off any wall it crossed. */
    method CheckBoundsCollisions(bounds: Rect)
      modifies this
      ensures State() == WallBounce(old(State()), bounds)
    {
      var m2 := mass / 2.0;
      if pos.x - m2 + Epsilon < bounds.x {
        pos := Vec(bounds.x + m2, pos.y);
        vel := MirrorX(vel, restitution);
      } else if pos.x + m2 - Epsilon > bounds.Right() {
        pos := Vec(bounds.Right() - m2, pos.y);
        vel := MirrorX(vel, restitution);
      }

      if pos.y + m2 - Epsilon > bounds.Bottom() {
        pos := Vec(pos.x, bounds.Bottom() - m2);
        vel := MirrorY(vel, restitution);
      } else if pos.y - m2 + Epsilon < bounds.y {
        pos := Vec(pos.x, bounds.y + m2);
        vel := MirrorY(vel, restitution);
      }
    }

    /**
     * Whether a point lies strictly inside the body, tested as squared distance over the
     * squared radius below one. With a zero mass the quotient is not finite and the test fails.
     */
    function Intersects(p: Vec): (r: bool)
      reads this
      ensures r <==> DistSq(pos, p) < Radius() * Radius()
    {
      var dx := p.x - pos.x;
      var dy := p.y - pos.y;
      var m := Radius() * Radius();
      assert dx * dx + dy * dy == Vec(dx, dy).NormSq();
      QuotientBelowOne(dx * dx + dy * dy, m);
      m != 0.0 && (dx * dx + dy * dy) / m < 1.0
    }

    /** A deep copy; the copy starts without acceleration and without a rollback point. */
    method Clone() returns (c: Body)
      ensures fresh(c)
      ensures c.State() == Cloned(State())
    {
      c := new Body(mass, pos.x, pos.y);
      c.movable := movable;
      c.restitution := restitution;
      c.vel := vel;
      c.historySize := historySize;
      c.history := history;
    }
  }
}
