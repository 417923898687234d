/**
 * Collision resolution between bodies (`Run2DCollision` and `CheckBodiesCollisions`):
 * candidate velocities are computed for every movable body from the states at the start
 * of the pass, combined, and only then written back, each affected body being rolled back
 * to the position it had before its last move.
 */
module Collisions {
  import opened Geometry
  import opened Bodies
  import opened Clusters

  /**
   * The outcome of `Run2DCollision`: a velocity only when the two bodies are within the
   * impact gate. The velocity itself comes from the trigonometric two-body formula, which
   * is supplied as `elastic`.
   */
  function Run2DCollision(b1: BodyState, b2: BodyState, elastic: (BodyState, BodyState) -> Vec): (v: Option<Vec>)
    ensures v.Some? <==> Colliding(b1, b2)
    ensures v.Some? ==> v.value == elastic(b1, b2)
  {
    if Colliding(b1, b2) then Some(elastic(b1, b2)) else None
  }

  /** Beyond the gate, whatever the distance, no velocity is produced. */
  lemma NoVelocityBeyondGate(b1: BodyState, b2: BodyState, elastic: (BodyState, BodyState) -> Vec, dist: real)
    requires dist >= 0.0 && dist * dist == DistSq(b1.pos, b2.pos)
    requires dist - (b1.Radius() + b2.Radius()) > MinDistance
    ensures Run2DCollision(b1, b2, elastic) == None
  {
    ImpactGate(b1, b2, dist);
  }

  /** Every body has a positive mass, and every movable one a rollback position. */
  predicate Ready(bodies: seq<BodyState>)
  {
    forall k :: 0 <= k < |bodies| ==>
      bodies[k].mass > 0.0 && (bodies[k].movable ==> bodies[k].lastPos.Some?)
  }

  /** The body `i` is tested against: body `j` alone, or the sum of the cluster around `j`. */
  function ClusterBody(bodies: seq<BodyState>, j: nat, i: int): BodyState
    requires j < |bodies|
  {
    var colBodies := GetCollidingBodies(bodies, j, [i]);
    if |colBodies| == 1 then bodies[j] else ClusterSum(bodies, colBodies)
  }

  /** The test body: a clone advanced one step without bounds. */
  function Lookahead(s: BodyState, forces: seq<Vec>, dt: real): BodyState
    requires s.mass > 0.0
  {
    Advance(Cloned(s), forces, EmptyRect, dt, false)
  }

  /** The candidate velocity the pair (i, j) contributes, or none. */
  function Candidate(bodies: seq<BodyState>, forces: seq<Vec>, dt: real,
                     elastic: (BodyState, BodyState) -> Vec, i: nat, j: nat): Option<Vec>
    requires Ready(bodies) && i < |bodies| && j < |bodies|
  {
    if i != j && Colliding(bodies[i], bodies[j]) then
      Run2DCollision(Lookahead(bodies[i], forces, dt), ClusterBody(bodies, j, i), elastic)
    else
      None
  }

  function Candidates(bodies: seq<BodyState>, forces: seq<Vec>, dt: real,
                      elastic: (BodyState, BodyState) -> Vec, i: nat): (cs: seq<Option<Vec>>)
    requires Ready(bodies) && i < |bodies|
    ensures |cs| == |bodies|
  {
    seq(|bodies|, j requires 0 <= j < |bodies| => Candidate(bodies, forces, dt, elastic, i, j))
  }

  /** One write to `newVels[i]`: the first velocity is stored, later ones are subtracted. */
  function Accumulate(acc: Option<Vec>, c: Option<Vec>): Option<Vec>
  {
    if acc.None? then c else if c.Some? then Some(acc.value.Minus(c.value)) else acc
  }

  /** `newVels[i]` after the candidates in `cs`, in order. */
  function CombineAll(cs: seq<Option<Vec>>): Option<Vec>
  {
    if |cs| == 0 then None else Accumulate(CombineAll(cs[..|cs| - 1]), cs[|cs| - 1])
  }

  /** The velocities among the candidates, in order. */
  function Present(cs: seq<Option<Vec>>): seq<Vec>
  {
    if |cs| == 0 then []
    else Present(cs[..|cs| - 1]) + (if cs[|cs| - 1].Some? then [cs[|cs| - 1].value] else [])
  }

  /** The combined velocity is the first candidate minus the sum of all later ones. */
  lemma {:induction false} CombineIsFirstMinusRest(cs: seq<Option<Vec>>)
    ensures var p := Present(cs);
      CombineAll(cs) == if |p| == 0 then None else Some(p[0].Minus(VecSum(p[1..])))
  {
    if |cs| > 0 {
      var pre := cs[..|cs| - 1];
      var c := cs[|cs| - 1];
      var p := Present(pre);
      CombineIsFirstMinusRest(pre);
      if c.Some? {
        if |p| == 0 {
          assert Present(cs) == [c.value];
          assert Present(cs)[1..] == [];
          assert CombineAll(cs) == Some(c.value);
          assert c.value.Minus(VecSum([])) == c.value;
        } else {
          assert Present(cs) == p + [c.value];
          assert Present(cs)[1..] == p[1..] + [c.value];
          VecSumAppend(p[1..], c.value);
          assert CombineAll(cs) == Some(p[0].Minus(VecSum(p[1..])).Minus(c.value));
        }
      } else {
        assert Present(cs) == p;
        assert CombineAll(cs) == CombineAll(pre);
      }
    }
  }

  /** What `newVels[i]` holds after the first pass. */
  function Resolution(bodies: seq<BodyState>, forces: seq<Vec>, dt: real,
                      elastic: (BodyState, BodyState) -> Vec, i: nat): (v: Option<Vec>)
    requires Ready(bodies) && i < |bodies|
    ensures v.Some? ==> bodies[i].movable
  {
    if bodies[i].movable then CombineAll(Candidates(bodies, forces, dt, elastic, i)) else None
  }

  /**
   * A body gets a new velocity exactly when it is movable and some candidate exists; the
   * velocity is the first candidate minus every later one, all computed from the states
   * at the start of the pass.
   */
  lemma ResolutionIsFirstMinusRest(bodies: seq<BodyState>, forces: seq<Vec>, dt: real,
                                   elastic: (BodyState, BodyState) -> Vec, i: nat)
    requires Ready(bodies) && i < |bodies|
    ensures var p := Present(Candidates(bodies, forces, dt, elastic, i));
      Resolution(bodies, forces, dt, elastic, i) ==
        if !bodies[i].movable || |p| == 0 then None else Some(p[0].Minus(VecSum(p[1..])))
  {
    CombineIsFirstMinusRest(Candidates(bodies, forces, dt, elastic, i));
  }

  /** The second pass on one body: take the new velocity and go back to `lastPos`. */
  function Applied(s: BodyState, newVel: Option<Vec>): (r: BodyState)
    requires newVel.Some? ==> s.lastPos.Some?
    ensures newVel.None? ==> r == s
    ensures newVel.Some? ==> r.vel == newVel.value && Some(r.pos) == s.lastPos
    ensures r == s.(vel := r.vel, pos := r.pos)
  {
    if newVel.Some? then s.(vel := newVel.value, pos := s.lastPos.value) else s
  }

  /** The states after `CheckBodiesCollisions`. */
  function Resolved(bodies: seq<BodyState>, forces: seq<Vec>, dt: real,
                    elastic: (BodyState, BodyState) -> Vec): (r: seq<BodyState>)
    requires Ready(bodies)
    ensures |r| == |bodies| && Ready(r)
    ensures forall k :: 0 <= k < |bodies| ==>
      r[k] == Applied(bodies[k], Resolution(bodies, forces, dt, elastic, k))
  {
    seq(|bodies|, k requires 0 <= k < |bodies| =>
      Applied(bodies[k], Resolution(bodies, forces, dt, elastic, k)))
  }

  predicate DistinctBodies(bodies: seq<Body>)
  {
    forall p, q :: 0 <= p < q < |bodies| ==> bodies[p] != bodies[q]
  }

  lemma DistinctAppend(bodies: seq<Body>, b: Body)
    requires DistinctBodies(bodies) && b !in bodies
    ensures DistinctBodies(bodies + [b])
  {
  }

  /**
   * The inner step of the first pass for a colliding pair: gather the cluster around `j`,
   * advance a clone of `i` one step, and run the two-body formula on them.
   */
  method CollisionCandidate(bodies: seq<Body>, forces: seq<Vec>, deltaTime: real,
                            elastic: (BodyState, BodyState) -> Vec, i: nat, j: nat)
    returns (v: Option<Vec>)
    requires Ready(States(bodies)) && i < |bodies| && j < |bodies|
    requires i != j && Colliding(bodies[i].State(), bodies[j].State())
    ensures v == Candidate(States(bodies), forces, deltaTime, elastic, i, j)
  {
    ghost var S := States(bodies);
    var colBodies := GetCollidingBodies(States(bodies), j, [i]);
    var bigBody: Body;
    if |colBodies| == 1 {
      bigBody := bodies[j];
    } else {
      bigBody := GetBodiesSum(bodies, colBodies);
    }
    assert bigBody.State() == ClusterBody(S, j, i);
    // The test body is one step ahead of the real one.
    var testBody := bodies[i].Clone();
    testBody.Update(forces, EmptyRect, deltaTime, false);
    assert testBody.State() == Lookahead(S[i], forces, deltaTime);
    v := Run2DCollision(testBody.State(), bigBody.State(), elastic);
  }

  /**
   * The inner loop of the first pass for a movable body `i`: the candidates against every
   * other body, combined in order as `newVels[i]` receives them.
   */
  method ResolveBody(bodies: seq<Body>, forces: seq<Vec>, deltaTime: real,
                     elastic: (BodyState, BodyState) -> Vec, i: nat)
    returns (v: Option<Vec>)
    requires Ready(States(bodies)) && i < |bodies| && bodies[i].movable
    ensures v == Resolution(States(bodies), forces, deltaTime, elastic, i)
  {
    ghost var cs := Candidates(States(bodies), forces, deltaTime, elastic, i);
    ghost var S := States(bodies);
    v := None;
    var j := 0;
    while j < |bodies|
      invariant 0 <= j <= |bodies|
      invariant States(bodies) == S
      invariant v == CombineAll(cs[..j])
    {
      if i != j && Colliding(bodies[i].State(), bodies[j].State()) {
        var c := CollisionCandidate(bodies, forces, deltaTime, elastic, i, j);
        assert c == cs[j];
        if v.None? {
          v := c;
        } else if c.Some? {
          v := Some(v.value.Minus(c.value));
        }
      }
      assert cs[..j + 1] == cs[..j] + [cs[j]];
      j := j + 1;
    }
    assert cs[..|bodies|] == cs;
  }

  /**
   * The first pass of `CheckBodiesCollisions`: every new velocity is computed from the
   * states at the start of the pass, and no body is touched.
   */
  method ResolveAll(bodies: seq<Body>, forces: seq<Vec>, deltaTime: real,
                    elastic: (BodyState, BodyState) -> Vec)
    returns (newVels: array<Option<Vec>>)
    requires Ready(States(bodies))
    ensures fresh(newVels) && newVels.Length == |bodies|
    ensures forall k :: 0 <= k < |bodies| ==>
      newVels[k] == Resolution(States(bodies), forces, deltaTime, elastic, k)
  {
    var n := |bodies|;
    ghost var S := States(bodies);
    var vels: seq<Option<Vec>> := [];
    var i := 0;
    while i < n
      invariant 0 <= i <= n && |vels| == i
      invariant forall k :: 0 <= k < i ==> vels[k] == Resolution(S, forces, deltaTime, elastic, k)
    {
      var v := None;
      if bodies[i].movable {
        v := ResolveBody(bodies, forces, deltaTime, elastic, i);
      }
      vels := vels + [v];
      i := i + 1;
    }
    newVels := new Option<Vec>[n](k requires 0 <= k < n => vels[k]);
  }

  /**
   * The second pass: every body with a new velocity takes it and goes back to the
   * position it had before its last move; the others are left alone.
   */
  method ApplyAll(bodies: seq<Body>, newVels: array<Option<Vec>>)
    requires DistinctBodies(bodies) && newVels.Length == |bodies|
    requires forall k :: 0 <= k < |bodies| ==> newVels[k].Some? ==> bodies[k].lastPos.Some?
    modifies bodies
    ensures forall k :: 0 <= k < |bodies| ==>
      bodies[k].State() == Applied(old(States(bodies))[k], newVels[k])
  {
    var n := |bodies|;
    ghost var snapshot := States(bodies);
    var i := 0;
    while i < n
      invariant 0 <= i <= n
      invariant forall k :: 0 <= k < i ==> bodies[k].State() == Applied(snapshot[k], newVels[k])
      invariant forall k :: i <= k < n ==> bodies[k].State() == snapshot[k]
    {
      if newVels[i].Some? {
        bodies[i].vel := newVels[i].value;
        bodies[i].pos := bodies[i].lastPos.value;  // back to the position before the move
      }
      i := i + 1;
    }
  }

  /** `CheckBodiesCollisions`: compute every new velocity first, then apply them. */
  method CheckBodiesCollisions(bodies: seq<Body>, forces: seq<Vec>, deltaTime: real,
                               elastic: (BodyState, BodyState) -> Vec)
    requires DistinctBodies(bodies) && Ready(States(bodies))
    modifies bodies
    ensures States(bodies) == Resolved(old(States(bodies)), forces, deltaTime, elastic)
  {
    var newVels := ResolveAll(bodies, forces, deltaTime, elastic);
    ApplyAll(bodies, newVels);
  }
}
