/**
  Plane geometry used by the hit tests. The game compares Euclidean distances
  against fixed radii; since every radius is positive, `sqrt(d2) <= r` holds
  exactly when `d2 <= r * r`, so the model compares squared distances and
  needs no square root.
 */
module Geometry {

  datatype Point = Point(x: real, y: real)

  /** Squared Euclidean distance between two points. */
  function Dist2(a: Point, b: Point): real
  {
    var dx := b.x - a.x;
    var dy := b.y - a.y;
    dx * dx + dy * dy
  }

  /** `a` lies within distance `r` of `b`, the boundary included. */
  predicate Within(a: Point, b: Point, r: real)
  {
    Dist2(a, b) <= r * r
  }

  /** A point is within any radius of itself. */
  lemma WithinSelf(a: Point, r: real)
    ensures Within(a, a, r)
  {
    assert Dist2(a, a) == 0.0;
    assert r * r >= 0.0 by {
      if r < 0.0 {
        assert r * r == (-r) * (-r);
      }
    }
  }

  /** Growing the radius never loses a point: the inner disc lies inside the outer one. */
  lemma WithinMonotone(a: Point, b: Point, r1: real, r2: real)
    requires 0.0 <= r1 <= r2
    ensures Within(a, b, r1) ==> Within(a, b, r2)
  {
    assert r1 * r1 <= r1 * r2 <= r2 * r2;
  }

  /** A point at distance `r` along the x axis is on the boundary of radius `r`, so within it. */
  lemma OnRadius(b: Point, r: real)
    ensures Within(Point(b.x + r, b.y), b, r)
  {
    var p := Point(b.x + r, b.y);
    assert Dist2(p, b) == (-r) * (-r) + 0.0 * 0.0;
    assert (-r) * (-r) == r * r;
  }

  /** A point at distance `r + e` along the x axis is outside radius `r`. */
  lemma BeyondRadius(b: Point, r: real, e: real)
    requires r >= 0.0 && e > 0.0
    ensures !Within(Point(b.x + r + e, b.y), b, r)
  {
    var p := Point(b.x + r + e, b.y);
    assert Dist2(p, b) == (-(r + e)) * (-(r + e)) + 0.0 * 0.0;
    assert (-(r + e)) * (-(r + e)) == (r + e) * (r + e);
    assert (r + e) * (r + e) == r * r + 2.0 * (r * e) + e * e;
    assert e * e > 0.0;
    assert r * e >= 0.0;
    assert (r + e) * (r + e) > r * r;
  }
}
