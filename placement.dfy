/**
 * The random layout of the standard scene (`CreateRandomObjects` in standard mode): how a
 * candidate body is drawn, the bounds test and the padded-rectangle test it must pass
 * against the bodies already placed, and the layout that results from a given sequence
 * of draws.
 */
module Placement {
  import opened Geometry
  import opened Bodies
  import opened Clusters

  /** Lightest body the layout draws, and the spread of masses above it. */
  const MinMass: real := 20.0
  const MassSpread: real := 100.0
  /** Gap kept around every body, on each side, when placing. */
  const Padding: real := 5.0

  /** Three successive `NextDouble` results: for the mass, the x and the y of a candidate. */
  datatype Draw = Draw(m: real, x: real, y: real)

  predicate Unit(u: real) { 0.0 <= u < 1.0 }

  predicate UnitDraw(d: Draw) { Unit(d.m) && Unit(d.x) && Unit(d.y) }

  /** The mass of a candidate lies in [20, 120). */
  function DrawnMass(d: Draw): (m: real)
    ensures Unit(d.m) ==> MinMass <= m < MinMass + MassSpread
  {
    d.m * MassSpread + MinMass
  }

  /** The centre of a candidate, scaled from unit draws to the extent of the bounds. */
  function DrawnCentre(d: Draw, b: Rect): Vec
  {
    Vec(d.x * b.width - b.width * 0.5, d.y * b.height - b.height * 0.5)
  }

  /** The centre of a candidate lies in [-W/2, W/2] x [-H/2, H/2] for bounds of extent W x H. */
  lemma CentreInView(d: Draw, b: Rect)
    ensures var c := DrawnCentre(d, b);
      && (Unit(d.x) && b.width >= 0.0 ==> -b.width * 0.5 <= c.x <= b.width * 0.5)
      && (Unit(d.y) && b.height >= 0.0 ==> -b.height * 0.5 <= c.y <= b.height * 0.5)
  {
    var c := DrawnCentre(d, b);
    UnitScale(d.x, b.width);
    UnitScale(d.y, b.height);
    assert c.x == d.x * b.width - b.width * 0.5;
    assert c.y == d.y * b.height - b.height * 0.5;
  }

  lemma UnitScale(u: real, w: real)
    ensures Unit(u) && w >= 0.0 ==> 0.0 <= u * w <= w
  {
  }

  /**
   * The bounds test a candidate must not fail: its left and lower edges inside the bounds,
   * and its centre at least a full mass below half the width and below the full height.
   */
  predicate OutOfBounds(mass: real, c: Vec, b: Rect)
  {
    c.x - mass / 2.0 < b.x || c.y - mass / 2.0 < b.y ||
    c.x + mass > b.width / 2.0 || c.y + mass > b.height
  }

  /** The candidate's square grown by the padding on every side. */
  function Padded(mass: real, c: Vec): (r: Rect)
    ensures r.x == c.x - mass / 2.0 - Padding && r.Right() == c.x + mass / 2.0 + Padding
    ensures r.y == c.y - mass / 2.0 - Padding && r.Bottom() == c.y + mass / 2.0 + Padding
  {
    Rect(c.x - mass / 2.0 - Padding, c.y - mass / 2.0 - Padding, mass + 2.0 * Padding, mass + 2.0 * Padding)
  }

  /** A placed body's square, inflated by the padding. */
  function Keepout(s: BodyState): (r: Rect)
    ensures r.x == s.pos.x - s.Radius() - Padding && r.Right() == s.pos.x + s.Radius() + Padding
    ensures r.y == s.pos.y - s.Radius() - Padding && r.Bottom() == s.pos.y + s.Radius() + Padding
  {
    Rect(s.pos.x - s.mass / 2.0, s.pos.y - s.mass / 2.0, s.mass, s.mass).Inflate(Padding, Padding)
  }

  /** No placed body's keep-out rectangle overlaps the padded candidate. */
  predicate Clear(placed: seq<BodyState>, mass: real, c: Vec)
  {
    forall j :: 0 <= j < |placed| ==> !Keepout(placed[j]).IntersectsWith(Padded(mass, c))
  }

  /** `isValid` at the end of one attempt. */
  predicate Acceptable(placed: seq<BodyState>, mass: real, c: Vec, b: Rect)
  {
    !OutOfBounds(mass, c, b) && Clear(placed, mass, c)
  }

  /**
   * Two padded squares miss each other exactly when the bodies' own squares are at least
   * twice the padding apart along one axis.
   */
  lemma KeepoutGap(s: BodyState, mass: real, c: Vec)
    ensures !Keepout(s).IntersectsWith(Padded(mass, c)) <==>
      (c.x - mass / 2.0 >= s.pos.x + s.Radius() + 2.0 * Padding ||
       s.pos.x - s.Radius() >= c.x + mass / 2.0 + 2.0 * Padding ||
       c.y - mass / 2.0 >= s.pos.y + s.Radius() + 2.0 * Padding ||
       s.pos.y - s.Radius() >= c.y + mass / 2.0 + 2.0 * Padding)
  {
  }

  /**
   * A candidate that is clear of a placed body does not collide with it: the gap of twice
   * the padding along one axis exceeds the impact distance.
   */
  lemma ClearMeansApart(s: BodyState, mass: real, c: Vec)
    requires s.mass >= 0.0 && mass >= 0.0
    requires !Keepout(s).IntersectsWith(Padded(mass, c))
    ensures !Colliding(s, Fresh(mass, c.x, c.y))
  {
    var t := Fresh(mass, c.x, c.y);
    var reach := s.Radius() + t.Radius() + MinDistance;
    var d := t.pos.Minus(s.pos);
    KeepoutGap(s, mass, c);
    assert t.Radius() == mass / 2.0;
    var gap: real;
    if d.x > reach {
      gap := d.x;
    } else if -d.x > reach {
      gap := -d.x;
    } else if d.y > reach {
      gap := d.y;
    } else {
      gap := -d.y;
    }
    assert gap > reach;
    assert gap * gap <= DistSq(s.pos, t.pos) by {
      assert DistSq(s.pos, t.pos) == d.x * d.x + d.y * d.y;
      assert d.x * d.x >= 0.0 && d.y * d.y >= 0.0;
    }
    SquareGrows(reach, gap);
  }

  /**
   * The top test of `OutOfBounds` can never fire when the bounds are at least 240 high: a
   * drawn centre is below half the height and a mass is below 120, so the candidate's
   * centre plus its mass stays below the full height. Only the other three tests constrain
   * a layout.
   */
  lemma TopTestNeverFires(d: Draw, b: Rect)
    requires UnitDraw(d) && b.height >= 2.0 * (MinMass + MassSpread)
    ensures !(DrawnCentre(d, b).y + DrawnMass(d) > b.height)
  {
    CentreInView(d, b);
  }

  /**
   * The layout a sequence of draws produces: the draws are tried in order, each one is
   * added when it passes both tests, and drawing stops once `n` bodies are placed. The
   * draw sequence is finite, so the layout may fall short of `n` where the source would
   * keep drawing.
   */
  function Place(draws: seq<Draw>, b: Rect, placed: seq<BodyState>, n: nat): seq<BodyState>
    decreases |draws|
  {
    if |placed| >= n || |draws| == 0 then
      placed
    else
      var mass := DrawnMass(draws[0]);
      var c := DrawnCentre(draws[0], b);
      var next := if Acceptable(placed, mass, c, b) then placed + [Fresh(mass, c.x, c.y)] else placed;
      Place(draws[1..], b, next, n)
  }

  /**
   * A layout only ever adds bodies after the ones already placed, and stops at `n` of
   * them.
   */
  lemma {:induction false} PlaceExtends(draws: seq<Draw>, b: Rect, placed: seq<BodyState>, n: nat)
    ensures var r := Place(draws, b, placed, n);
      && |placed| <= |r| && r[..|placed|] == placed
      && |r| <= if |placed| <= n then n else |placed|
    decreases |draws|
  {
    if |placed| < n && |draws| > 0 {
      var mass := DrawnMass(draws[0]);
      var c := DrawnCentre(draws[0], b);
      var next := if Acceptable(placed, mass, c, b) then placed + [Fresh(mass, c.x, c.y)] else placed;
      PlaceExtends(draws[1..], b, next, n);
      var r := Place(draws[1..], b, next, n);
      assert r[..|placed|] == next[..|placed|] == placed;
    }
  }

  /** One draw of a layout: it is taken when it passes both tests and skipped otherwise. */
  lemma PlaceStep(draws: seq<Draw>, i: nat, b: Rect, placed: seq<BodyState>, n: nat)
    requires i < |draws| && |placed| < n
    ensures var mass := DrawnMass(draws[i]);
      var c := DrawnCentre(draws[i], b);
      Place(draws[i..], b, placed, n) ==
        if Acceptable(placed, mass, c, b) then Place(draws[i + 1..], b, placed + [Fresh(mass, c.x, c.y)], n)
        else Place(draws[i + 1..], b, placed, n)
  {
  }

  /**
   * Every body a layout adds is a fresh body that passed both tests against the bodies
   * before it, and its mass is a drawn mass.
   */
  lemma {:induction false} PlaceSound(draws: seq<Draw>, b: Rect, placed: seq<BodyState>, n: nat)
    ensures var r := Place(draws, b, placed, n);
      forall k :: |placed| <= k < |r| ==>
        r[k] == Fresh(r[k].mass, r[k].pos.x, r[k].pos.y) && Acceptable(r[..k], r[k].mass, r[k].pos, b)
    ensures (forall k :: 0 <= k < |draws| ==> UnitDraw(draws[k])) ==>
      var r := Place(draws, b, placed, n);
      forall k :: |placed| <= k < |r| ==> MinMass <= r[k].mass < MinMass + MassSpread
    decreases |draws|
  {
    if |placed| < n && |draws| > 0 {
      var mass := DrawnMass(draws[0]);
      var c := DrawnCentre(draws[0], b);
      var next := if Acceptable(placed, mass, c, b) then placed + [Fresh(mass, c.x, c.y)] else placed;
      var r := Place(draws, b, placed, n);
      assert r == Place(draws[1..], b, next, n);
      PlaceSound(draws[1..], b, next, n);
      PlaceExtends(draws[1..], b, next, n);
      if Acceptable(placed, mass, c, b) {
        assert r[..|placed| + 1] == next;
        assert r[..|placed|] == placed;
      }
    }
  }

  /** No two bodies of a layout built from scratch collide with each other. */
  lemma {:induction false} LayoutApart(draws: seq<Draw>, b: Rect, n: nat, p: nat, q: nat)
    requires forall k :: 0 <= k < |draws| ==> UnitDraw(draws[k])
    requires p < q < |Place(draws, b, [], n)|
    ensures !Colliding(Place(draws, b, [], n)[p], Place(draws, b, [], n)[q])
  {
    var r := Place(draws, b, [], n);
    PlaceSound(draws, b, [], n);
    assert Acceptable(r[..q], r[q].mass, r[q].pos, b);
    assert r[..q][p] == r[p];
    assert !Keepout(r[p]).IntersectsWith(Padded(r[q].mass, r[q].pos));
    ClearMeansApart(r[p], r[q].mass, r[q].pos);
  }

  /**
   * The number of bodies `Random.Next(3, (int)Math.Sqrt(width))` can return: from 3 up to,
   * but excluding, the integer square root of the width, or 3 itself when that root is 3.
   */
  predicate BodyCount(n: int, width: real)
  {
    3 <= n && (((n + 1) * (n + 1)) as real <= width || (n == 3 && 9.0 <= width))
  }
}
