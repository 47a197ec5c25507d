/** Points on the plane and the straight-line step a robot takes toward a target. */
module Geometry {

  /** A point of the plane; the source's Position is a value object (x, y). */
  datatype Position = Position(x: real, y: real)

  /** A distance function between positions.  The source uses the Euclidean norm
      (computed in floating point); the model keeps the metric abstract and relies only
      on its being non-negative and zero from a point to itself. */
  type Metric = f: (Position, Position) -> real
    | (forall p, q :: 0.0 <= f(p, q)) && (forall p :: f(p, p) == 0.0)
    witness (p: Position, q: Position) => 0.0

  function Min(a: real, b: real): (r: real)
    ensures r <= a && r <= b && (r == a || r == b)
  {
    if a <= b then a else b
  }

  function Max(a: real, b: real): (r: real)
    ensures a <= r && b <= r && (r == a || r == b)
  {
    if a <= b then b else a
  }

  /** Dividing by a non-zero `d` and multiplying back by it is the identity. */
  lemma ScaleBack(a: real, d: real)
    requires d > 0.0
    ensures a / d * d == a
  {
  }

  /** Moves `p` by `m` units along the unit vector toward `t`, where `d` is the
      distance from `p` to `t`: each coordinate gains its direction component
      ((t - p) / d) times `m`. */
  function Advance(p: Position, t: Position, d: real, m: real): (r: Position)
    requires d > 0.0
    ensures m == d ==> r == t
    ensures m == 0.0 ==> r == p
  {
    ScaleBack(t.x - p.x, d);
    ScaleBack(t.y - p.y, d);
    Position(p.x + (t.x - p.x) / d * m, p.y + (t.y - p.y) / d * m)
  }
}
