/** Classification of a click against a live target: bullseye, outer ring or miss. */
module Scoring {
  import opened Geometry
  import opened Config

  datatype Hit = Hit(inner: bool, outer: bool, score: int)

  /** Classifies a click at `mouse` against the target centred at `target`. */
  function Classify(mouse: Point, target: Point): (h: Hit)
    ensures h.inner ==> h.outer
    ensures h.score == 10 <==> Within(mouse, target, InnerRadius)
    ensures h.score == 5 <==> !Within(mouse, target, InnerRadius) && Within(mouse, target, OuterRadius)
    ensures h.score == 0 <==> !Within(mouse, target, OuterRadius)
    ensures h.inner <==> h.score == 10
    ensures h.outer <==> h.score != 0
  {
    WithinMonotone(mouse, target, InnerRadius, OuterRadius);
    var d := Dist2(mouse, target);
    var inner := d <= InnerRadius * InnerRadius;
    var outer := d <= OuterRadius * OuterRadius;
    Hit(inner, outer, if inner then 10 else if outer then 5 else 0)
  }

  /** Ring boundaries count as hits: a click exactly on the bullseye's edge scores 10,
      exactly on the outer ring's edge scores 5, and any distance beyond it scores 0. */
  lemma BoundaryScores(target: Point, e: real)
    requires e > 0.0
    ensures Classify(Point(target.x + InnerRadius, target.y), target).score == 10
    ensures Classify(Point(target.x + OuterRadius, target.y), target).score == 5
    ensures Classify(Point(target.x + OuterRadius + e, target.y), target).score == 0
  {
    OnRadius(target, InnerRadius);
    OnRadius(target, OuterRadius);
    BeyondRadius(target, OuterRadius, e);
  }
}
