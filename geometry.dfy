/**
 * The geometric primitives the engine is built on: the `Vector` type (read here as a
 * cartesian pair of reals with componentwise arithmetic) and the `RectangleF` bounds.
 * Only the cartesian view is modelled; the polar view (magnitude and angle) needs square
 * roots and trigonometry and appears elsewhere only through its cartesian effect.
 */
module Geometry {

  datatype Option<+T> = None | Some(value: T)

  /** A point or a displacement in the plane. */
  datatype Vec = Vec(x: real, y: real)
  {
    function Plus(v: Vec): Vec { Vec(x + v.x, y + v.y) }

    function Minus(v: Vec): Vec { Vec(x - v.x, y - v.y) }

    function Times(k: real): Vec { Vec(x * k, y * k) }

    function Over(k: real): Vec
      requires k != 0.0
    {
      Vec(x / k, y / k)
    }

    /** The squared magnitude; the magnitude itself is never needed. */
    function NormSq(): (n: real)
      ensures n >= 0.0
    {
      x * x + y * y
    }
  }

  const Zero: Vec := Vec(0.0, 0.0)

  /** Squared distance between two points. */
  function DistSq(p: Vec, q: Vec): (d: real)
    ensures d >= 0.0
  {
    q.Minus(p).NormSq()
  }

  /** Sum of a list of vectors, folded from the front. */
  function VecSum(vs: seq<Vec>): Vec
  {
    if |vs| == 0 then Zero else vs[0].Plus(VecSum(vs[1..]))
  }

  lemma {:induction false} VecSumAppend(vs: seq<Vec>, v: Vec)
    ensures VecSum(vs + [v]) == VecSum(vs).Plus(v)
  {
    if |vs| > 0 {
      assert (vs + [v])[1..] == vs[1..] + [v];
      VecSumAppend(vs[1..], v);
    }
  }

  /** An axis-aligned rectangle given by its corner and extent, as `RectangleF` stores it. */
  datatype Rect = Rect(x: real, y: real, width: real, height: real)
  {
    function Right(): real { x + width }

    function Bottom(): real { y + height }

    /** Grows the rectangle by `dx` on the left and the right and by `dy` on both other sides. */
    function Inflate(dx: real, dy: real): (r: Rect)
      ensures r.Right() == Right() + dx && r.Bottom() == Bottom() + dy
    {
      Rect(x - dx, y - dy, width + 2.0 * dx, height + 2.0 * dy)
    }

    /** Open overlap of two rectangles, as `RectangleF.IntersectsWith` tests it. */
    predicate IntersectsWith(r: Rect)
    {
      r.x < Right() && x < r.Right() && r.y < Bottom() && y < r.Bottom()
    }
  }

  /** `RectangleF.Empty`. */
  const EmptyRect: Rect := Rect(0.0, 0.0, 0.0, 0.0)
}
