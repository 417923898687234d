/**
 * Collision detection between bodies: the impact-distance gate, the recursive search for
 * the cluster of bodies touching one body, and the aggregation of a cluster into one
 * equivalent body (the static helpers of `Body2D`).
 */
module Clusters {
  import opened Geometry
  import opened Bodies

  /** Largest impact distance that still counts as a collision. */
  const MinDistance: real := 1.0

  /**
   * `GetImpactVector(a, b).Magnitude <= minDistance`: the centre distance minus both radii
   * is at most `MinDistance`. Stated on squares, so that no square root is taken.
   */
  predicate Colliding(a: BodyState, b: BodyState)
  {
    var reach := a.Radius() + b.Radius() + MinDistance;
    reach >= 0.0 && DistSq(a.pos, b.pos) <= reach * reach
  }

  /** The squared gate agrees with the source's test for the true (nonnegative) distance. */
  lemma ImpactGate(a: BodyState, b: BodyState, dist: real)
    requires dist >= 0.0 && dist * dist == DistSq(a.pos, b.pos)
    ensures Colliding(a, b) <==> dist - (a.Radius() + b.Radius()) <= MinDistance
  {
    var reach := a.Radius() + b.Radius() + MinDistance;
    if dist <= reach {
      assert dist * dist <= reach * dist <= reach * reach;
    } else if reach >= 0.0 {
      SquareGrows(reach, dist);
    }
  }

  lemma SquareGrows(lo: real, hi: real)
    requires 0.0 <= lo < hi
    ensures lo * lo < hi * hi
  {
    var below, between, above := lo * lo, lo * hi, hi * hi;
    assert below <= between;
    assert between < above;
  }

  /** The gate does not depend on the order of the two bodies. */
  lemma CollidingSymmetric(a: BodyState, b: BodyState)
    ensures Colliding(a, b) <==> Colliding(b, a)
  {
  }

  // ---------------------------------------------------------------- cluster search

  predicate Distinct(s: seq<int>)
  {
    forall p, q :: 0 <= p < q < |s| ==> s[p] != s[q]
  }

  /** `Distinct()` on a list: every value once, at its first position. */
  function Dedup(s: seq<int>): (r: seq<int>)
    ensures forall k :: k in r <==> k in s
    ensures Distinct(r)
    ensures |s| > 0 ==> |r| > 0 && r[0] == s[0]
  {
    if |s| == 0 then []
    else
      var d := Dedup(s[..|s| - 1]);
      assert forall k :: k in s <==> k in s[..|s| - 1] || k == s[|s| - 1] by {
        assert s == s[..|s| - 1] + [s[|s| - 1]];
      }
      if s[|s| - 1] in d then d else d + [s[|s| - 1]]
  }

  /** The body indices the search may still enter. */
  function Unvisited(bodies: seq<BodyState>, ignore: seq<int>): set<int>
  {
    set k | 0 <= k < |bodies| && k !in ignore
  }

  /**
   * `GetCollidingBodies(bodies, b1, ignore)`: `b1` followed by the clusters found from each
   * body that collides with `b1` and is not ignored, without repetitions. Each recursive
   * call ignores one more body in range, which is why the search ends.
   */
  function GetCollidingBodies(bodies: seq<BodyState>, b1: nat, ignore: seq<int>): (r: seq<int>)
    requires b1 < |bodies|
    ensures |r| > 0 && r[0] == b1
    ensures Distinct(r)
    ensures forall k :: k in r ==> 0 <= k < |bodies|
    ensures Members(bodies, r)
    ensures forall k :: k in r && k in ignore ==> k == b1
    ensures forall k ::
              (0 <= k < |bodies| && k != b1 && k !in ignore && Colliding(bodies[b1], bodies[k])) ==> k in r
    decreases Unvisited(bodies, ignore), 1, 0
  {
    var r := Dedup([b1] + Scan(bodies, b1, ignore, 0));
    assert forall t :: 0 <= t < |r| ==> r[t] in r;
    r
  }

  /**
   * The `for b2` loop of the search from `b2` on, with the growing ignore list `il`: the
   * concatenation of the sub-clusters it appends to `bs`.
   */
  function Scan(bodies: seq<BodyState>, b1: nat, il: seq<int>, b2: nat): (r: seq<int>)
    requires b1 < |bodies| && b2 <= |bodies|
    ensures forall k :: k in r ==> 0 <= k < |bodies| && k !in il && k != b1
    ensures forall k ::
              (b2 <= k < |bodies| && k != b1 && k !in il && Colliding(bodies[b1], bodies[k])) ==> k in r
    decreases Unvisited(bodies, il), 0, |bodies| - b2
  {
    if b2 == |bodies| then
      []
    else if b2 != b1 && b2 !in il && Colliding(bodies[b1], bodies[b2]) then
      var il' := il + [b1, b2];
      assert Unvisited(bodies, il') < Unvisited(bodies, il) by {
        assert b2 in Unvisited(bodies, il) && b2 !in Unvisited(bodies, il');
      }
      var sub := GetCollidingBodies(bodies, b2, il');
      assert b2 in sub;
      sub + Scan(bodies, b1, il', b2 + 1)
    else
      Scan(bodies, b1, il, b2 + 1)
  }

  /**
   * A chain of collisions along the indices of `p`: every index valid, every body after
   * the first outside `ignore` and colliding with the one before it.
   */
  ghost predicate CollisionPath(bodies: seq<BodyState>, ignore: seq<int>, p: seq<int>)
  {
    && |p| >= 1
    && Members(bodies, p)
    && forall t :: 1 <= t < |p| ==> p[t] !in ignore && Colliding(bodies[p[t - 1]], bodies[p[t]])
  }

  /** Body `k` is reached from `b1` by a chain of collisions that avoids `ignore`. */
  ghost predicate Reachable(bodies: seq<BodyState>, ignore: seq<int>, b1: int, k: int)
  {
    exists p :: CollisionPath(bodies, ignore, p) && p[0] == b1 && p[|p| - 1] == k
  }

  /**
   * The search finds exactly the transitive cluster: the bodies reached from `b1` through
   * chains of colliding bodies that never enter `ignore`.
   */
  lemma ClusterIsReachable(bodies: seq<BodyState>, b1: nat, ignore: seq<int>)
    requires b1 < |bodies|
    ensures forall k :: k in GetCollidingBodies(bodies, b1, ignore) <==> Reachable(bodies, ignore, b1, k)
  {
    ClusterSound(bodies, b1, ignore);
    forall k | Reachable(bodies, ignore, b1, k)
      ensures k in GetCollidingBodies(bodies, b1, ignore)
    {
      var p :| CollisionPath(bodies, ignore, p) && p[0] == b1 && p[|p| - 1] == k;
      ClusterComplete(bodies, b1, ignore, p);
    }
  }

  /** Every body the search returns is reached from `b1`. */
  lemma {:induction false} ClusterSound(bodies: seq<BodyState>, b1: nat, ignore: seq<int>)
    requires b1 < |bodies|
    ensures forall k :: k in GetCollidingBodies(bodies, b1, ignore) ==> Reachable(bodies, ignore, b1, k)
    decreases Unvisited(bodies, ignore), 1, 0
  {
    ScanSound(bodies, b1, ignore, 0);
    var s := Scan(bodies, b1, ignore, 0);
    assert CollisionPath(bodies, ignore, [b1]);
    assert forall k :: k in GetCollidingBodies(bodies, b1, ignore) ==> k == b1 || k in s by {
      assert forall k :: k in [b1] + s ==> k == b1 || k in s;
    }
  }

  /** Every body the loop appends from `b2` on is reached from `b1`. */
  lemma {:induction false} ScanSound(bodies: seq<BodyState>, b1: nat, il: seq<int>, b2: nat)
    requires b1 < |bodies| && b2 <= |bodies|
    ensures forall k :: k in Scan(bodies, b1, il, b2) ==> Reachable(bodies, il, b1, k)
    decreases Unvisited(bodies, il), 0, |bodies| - b2
  {
    if b2 == |bodies| {
    } else if b2 != b1 && b2 !in il && Colliding(bodies[b1], bodies[b2]) {
      var il' := il + [b1, b2];
      assert Unvisited(bodies, il') < Unvisited(bodies, il) by {
        assert b2 in Unvisited(bodies, il) && b2 !in Unvisited(bodies, il');
      }
      ClusterSound(bodies, b2, il');
      ScanSound(bodies, b1, il', b2 + 1);
      forall k | k in GetCollidingBodies(bodies, b2, il')
        ensures Reachable(bodies, il, b1, k)
      {
        ChainExtend(bodies, il, b1, b2, k);
      }
      forall k | k in Scan(bodies, b1, il', b2 + 1)
        ensures Reachable(bodies, il, b1, k)
      {
        ChainWeaken(bodies, il, [b1, b2], b1, k);
      }
    } else {
      ScanSound(bodies, b1, il, b2 + 1);
    }
  }

  /** A chain from a body colliding with `b1`, with `b1` in front, is a chain from `b1`. */
  lemma ChainExtend(bodies: seq<BodyState>, il: seq<int>, b1: nat, b2: nat, k: int)
    requires b1 < |bodies| && b2 < |bodies| && b2 !in il && Colliding(bodies[b1], bodies[b2])
    requires Reachable(bodies, il + [b1, b2], b2, k)
    ensures Reachable(bodies, il, b1, k)
  {
    var p :| CollisionPath(bodies, il + [b1, b2], p) && p[0] == b2 && p[|p| - 1] == k;
    var q := [b1] + p;
    forall t | 1 <= t < |q|
      ensures q[t] !in il && Colliding(bodies[q[t - 1]], bodies[q[t]])
    {
      assert q[t] == p[t - 1];
      if t > 1 {
        assert q[t - 1] == p[t - 2];
      }
    }
    assert CollisionPath(bodies, il, q);
  }

  /** A chain that avoids a longer ignore list avoids a shorter one. */
  lemma ChainWeaken(bodies: seq<BodyState>, il: seq<int>, more: seq<int>, b1: int, k: int)
    requires Reachable(bodies, il + more, b1, k)
    ensures Reachable(bodies, il, b1, k)
  {
  }

  /** The last position after the first of `p` whose body collides with body `x`. */
  ghost function LastCollider(bodies: seq<BodyState>, x: nat, p: seq<int>, hi: nat): (j: nat)
    requires x < |bodies| && Members(bodies, p) && 2 <= hi <= |p|
    requires Colliding(bodies[x], bodies[p[1]])
    ensures 1 <= j < hi && Colliding(bodies[x], bodies[p[j]])
    ensures forall t :: j < t < hi ==> !Colliding(bodies[x], bodies[p[t]])
    decreases hi
  {
    if Colliding(bodies[x], bodies[p[hi - 1]]) then hi - 1 else LastCollider(bodies, x, p, hi - 1)
  }

  /**
   * Every body reached from `x` is found. Cut the chain after the last time it visits `x`
   * and after the last body colliding with `x`: the rest of the chain then avoids every
   * index the loop adds to the ignore list before that body's turn.
   */
  lemma {:induction false} ClusterComplete(bodies: seq<BodyState>, x: nat, ignore: seq<int>, p: seq<int>)
    requires x < |bodies| && CollisionPath(bodies, ignore, p) && p[0] == x
    ensures p[|p| - 1] in GetCollidingBodies(bodies, x, ignore)
    decreases Unvisited(bodies, ignore), 1, |p|
  {
    if |p| == 1 {
      InCluster(bodies, x, ignore, x);
    } else if t :| 1 <= t < |p| && p[t] == x {
      PathSuffix(bodies, ignore, p, t);
      ClusterComplete(bodies, x, ignore, p[t..]);
    } else {
      ClusterViaLastCollider(bodies, x, ignore, p);
    }
  }

  /**
   * The case of `ClusterComplete` where the chain never comes back to `x`: from the last
   * body on it that collides with `x`, the loop's search reaches the end.
   */
  lemma {:induction false} ClusterViaLastCollider(bodies: seq<BodyState>, x: nat, ignore: seq<int>, p: seq<int>)
    requires x < |bodies| && CollisionPath(bodies, ignore, p) && p[0] == x && |p| >= 2
    requires forall t :: 1 <= t < |p| ==> p[t] != x
    ensures p[|p| - 1] in GetCollidingBodies(bodies, x, ignore)
    decreases Unvisited(bodies, ignore), 1, 0
  {
    var j := LastCollider(bodies, x, p, |p|);
    PathSuffix(bodies, ignore, p, j);
    var q := p[j..];
    forall u | 1 <= u < |q|
      ensures q[u] != x && !Colliding(bodies[x], bodies[q[u]])
    {
      assert q[u] == p[j + u];
    }
    ScanComplete(bodies, x, ignore, 0, q);
    InCluster(bodies, x, ignore, q[|q| - 1]);
  }

  /** The search returns `x` and everything its loop appends. */
  lemma InCluster(bodies: seq<BodyState>, x: nat, ignore: seq<int>, k: int)
    requires x < |bodies| && (k == x || k in Scan(bodies, x, ignore, 0))
    ensures k in GetCollidingBodies(bodies, x, ignore)
  {
  }

  /** A chain cut at position `t` is still a chain. */
  lemma PathSuffix(bodies: seq<BodyState>, ignore: seq<int>, p: seq<int>, t: nat)
    requires CollisionPath(bodies, ignore, p) && t < |p|
    ensures CollisionPath(bodies, ignore, p[t..])
  {
  }

  /**
   * A chain from a body `q[0]` colliding with `b1`, not yet passed by the loop and not
   * ignored, whose later bodies are neither `b1`, nor ignored, nor colliding with `b1`:
   * its end is among the bodies the loop appends from `b2` on.
   */
  lemma {:induction false} ScanComplete(bodies: seq<BodyState>, b1: nat, il: seq<int>, b2: nat, q: seq<int>)
    requires b1 < |bodies| && CollisionPath(bodies, il, q)
    requires b2 <= q[0] && q[0] != b1 && q[0] !in il && Colliding(bodies[b1], bodies[q[0]])
    requires forall u :: 1 <= u < |q| ==> q[u] != b1 && !Colliding(bodies[b1], bodies[q[u]])
    ensures q[|q| - 1] in Scan(bodies, b1, il, b2)
    decreases Unvisited(bodies, il), 0, |bodies| - b2
  {
    assert b2 < |bodies|;
    if b2 != b1 && b2 !in il && Colliding(bodies[b1], bodies[b2]) {
      var il' := il + [b1, b2];
      assert Unvisited(bodies, il') < Unvisited(bodies, il) by {
        assert b2 in Unvisited(bodies, il) && b2 !in Unvisited(bodies, il');
      }
      assert CollisionPath(bodies, il', q);
      if b2 == q[0] {
        ClusterComplete(bodies, b2, il', q);
      } else {
        ScanComplete(bodies, b1, il', b2 + 1, q);
      }
    } else {
      ScanComplete(bodies, b1, il, b2 + 1, q);
    }
  }

  // ---------------------------------------------------------------- cluster aggregation

  predicate Members(bodies: seq<BodyState>, cb: seq<int>)
  {
    forall i :: 0 <= i < |cb| ==> 0 <= cb[i] < |bodies|
  }

  /** The accumulator body after the first `i` members: a clone of the first, then sums. */
  function Gathered(bodies: seq<BodyState>, cb: seq<int>, i: nat): BodyState
    requires Members(bodies, cb) && 1 <= i <= |cb|
  {
    if i == 1 then Cloned(bodies[cb[0]])
    else
      var g := Gathered(bodies, cb, i - 1);
      var m := bodies[cb[i - 1]];
      g.(mass := g.mass + m.mass, vel := g.vel.Plus(m.vel))
  }

  /** The running position total `p` after the first `i` members. */
  function PositionTotal(bodies: seq<BodyState>, cb: seq<int>, i: nat): Vec
    requires Members(bodies, cb) && i <= |cb|
  {
    if i == 0 then Zero else PositionTotal(bodies, cb, i - 1).Plus(bodies[cb[i - 1]].pos)
  }

  /** `GetBodiesSum`: the accumulated body placed at the mean member position. */
  function ClusterSum(bodies: seq<BodyState>, cb: seq<int>): BodyState
    requires Members(bodies, cb) && |cb| >= 1
  {
    Gathered(bodies, cb, |cb|).(pos := PositionTotal(bodies, cb, |cb|).Over(|cb| as real))
  }

  function MassSum(ms: seq<real>): real
  {
    if |ms| == 0 then 0.0 else ms[0] + MassSum(ms[1..])
  }

  lemma {:induction false} MassSumAppend(ms: seq<real>, m: real)
    ensures MassSum(ms + [m]) == MassSum(ms) + m
  {
    if |ms| > 0 {
      assert (ms + [m])[1..] == ms[1..] + [m];
      MassSumAppend(ms[1..], m);
    }
  }

  function MemberMasses(bodies: seq<BodyState>, cb: seq<int>): (r: seq<real>)
    requires Members(bodies, cb)
    ensures |r| == |cb| && forall k :: 0 <= k < |cb| ==> r[k] == bodies[cb[k]].mass
  {
    seq(|cb|, k requires 0 <= k < |cb| => bodies[cb[k]].mass)
  }

  function MemberVelocities(bodies: seq<BodyState>, cb: seq<int>): (r: seq<Vec>)
    requires Members(bodies, cb)
    ensures |r| == |cb| && forall k :: 0 <= k < |cb| ==> r[k] == bodies[cb[k]].vel
  {
    seq(|cb|, k requires 0 <= k < |cb| => bodies[cb[k]].vel)
  }

  function MemberPositions(bodies: seq<BodyState>, cb: seq<int>): (r: seq<Vec>)
    requires Members(bodies, cb)
    ensures |r| == |cb| && forall k :: 0 <= k < |cb| ==> r[k] == bodies[cb[k]].pos
  {
    seq(|cb|, k requires 0 <= k < |cb| => bodies[cb[k]].pos)
  }

  lemma {:induction false} GatheredSums(bodies: seq<BodyState>, cb: seq<int>, i: nat)
    requires Members(bodies, cb) && 1 <= i <= |cb|
    ensures var g := Gathered(bodies, cb, i);
      && g.mass == MassSum(MemberMasses(bodies, cb)[..i])
      && g.vel == VecSum(MemberVelocities(bodies, cb)[..i])
      && g == Cloned(bodies[cb[0]]).(mass := g.mass, vel := g.vel)
    ensures PositionTotal(bodies, cb, i) == VecSum(MemberPositions(bodies, cb)[..i])
  {
    var ms, vs, ps := MemberMasses(bodies, cb), MemberVelocities(bodies, cb), MemberPositions(bodies, cb);
    if i == 1 {
      assert ms[..1] == [ms[0]] && vs[..1] == [vs[0]] && ps[..1] == [ps[0]];
      assert PositionTotal(bodies, cb, 1) == Zero.Plus(ps[0]);
    } else {
      GatheredSums(bodies, cb, i - 1);
      assert ms[..i] == ms[..i - 1] + [ms[i - 1]];
      assert vs[..i] == vs[..i - 1] + [vs[i - 1]];
      assert ps[..i] == ps[..i - 1] + [ps[i - 1]];
      MassSumAppend(ms[..i - 1], ms[i - 1]);
      VecSumAppend(vs[..i - 1], vs[i - 1]);
      VecSumAppend(ps[..i - 1], ps[i - 1]);
    }
  }

  /**
   * The equivalent body of a cluster: total mass, total velocity, mean position, and the
   * restitution, movability and trail of the first member.
   */
  lemma ClusterSumIsAggregate(bodies: seq<BodyState>, cb: seq<int>)
    requires Members(bodies, cb) && |cb| >= 1
    ensures var c := ClusterSum(bodies, cb);
      && c.mass == MassSum(MemberMasses(bodies, cb))
      && c.vel == VecSum(MemberVelocities(bodies, cb))
      && c.pos == VecSum(MemberPositions(bodies, cb)).Over(|cb| as real)
      && c.restitution == bodies[cb[0]].restitution
      && c.movable == bodies[cb[0]].movable
      && c.history == bodies[cb[0]].history
      && c.historySize == bodies[cb[0]].historySize
  {
    GatheredSums(bodies, cb, |cb|);
    assert MemberMasses(bodies, cb)[..|cb|] == MemberMasses(bodies, cb);
    assert MemberVelocities(bodies, cb)[..|cb|] == MemberVelocities(bodies, cb);
    assert MemberPositions(bodies, cb)[..|cb|] == MemberPositions(bodies, cb);
  }

  // ---------------------------------------------------------------- on the objects

  /** The states of a list of bodies. */
  function States(bodies: seq<Body>): (s: seq<BodyState>)
    reads bodies
    ensures |s| == |bodies| && forall k :: 0 <= k < |bodies| ==> s[k] == bodies[k].State()
  {
    seq(|bodies|, k requires 0 <= k < |bodies| reads bodies => bodies[k].State())
  }

  lemma StatesAppend(bodies: seq<Body>, b: Body)
    ensures States(bodies + [b]) == States(bodies) + [b.State()]
  {
  }

  /** `GetBodiesSum` as the source runs it: clone the first member, then accumulate. */
  method GetBodiesSum(bodies: seq<Body>, colBodies: seq<int>) returns (sum: Body)
    requires Members(States(bodies), colBodies) && |colBodies| >= 1
    ensures fresh(sum)
    ensures sum.State() == ClusterSum(States(bodies), colBodies)
  {
    ghost var snapshot := States(bodies);
    var newBody: Body? := null;
    var p := Zero;
    for i := 0 to |colBodies|
      invariant States(bodies) == snapshot
      invariant newBody == null <==> i == 0
      invariant newBody != null ==> fresh(newBody) && newBody.State() == Gathered(snapshot, colBodies, i)
      invariant p == PositionTotal(snapshot, colBodies, i)
    {
      var member := bodies[colBodies[i]];
      assert member.State() == snapshot[colBodies[i]];
      if newBody == null {
        newBody := member.Clone();
      } else {
        newBody.SetMass(newBody.mass + member.mass);
        newBody.vel := newBody.vel.Plus(member.vel);
      }
      p := p.Plus(member.pos);
    }
    p := p.Over(|colBodies| as real);
    newBody.pos := p;
    sum := newBody;
  }
}
