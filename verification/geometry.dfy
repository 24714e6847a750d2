/** Screen geometry. Detections sit on integer pixel positions; cluster centres are exact means
    and therefore real. Every Euclidean comparison of the bot is a comparison of a square root
    against a bound, which is stated here on squared distances so that no square root is needed. */
module Geometry {

  /** An integer pixel position (x grows to the right, y grows downwards). */
  datatype Pos = Pos(x: int, y: int)

  /** A real-valued screen point, used for cluster centres and targets. */
  datatype Point = Point(x: real, y: real)

  function ToPoint(p: Pos): Point {
    Point(p.x as real, p.y as real)
  }

  function Abs(v: int): nat {
    if v < 0 then -v else v
  }

  function AbsR(v: real): real {
    if v < 0.0 then -v else v
  }

  function SqDist(a: Pos, b: Pos): int {
    (a.x - b.x) * (a.x - b.x) + (a.y - b.y) * (a.y - b.y)
  }

  function SqDistR(a: Point, b: Point): real {
    (a.x - b.x) * (a.x - b.x) + (a.y - b.y) * (a.y - b.y)
  }

  /** `sqrt(SqDist(a, b)) < bound`: a negative or zero bound admits nothing. */
  predicate CloserThan(a: Pos, b: Pos, bound: int) {
    bound > 0 && SqDist(a, b) < bound * bound
  }

  /** `sqrt(SqDist(a, b)) <= bound`: a negative bound admits nothing. */
  predicate WithinDist(a: Pos, b: Pos, bound: int) {
    bound >= 0 && SqDist(a, b) <= bound * bound
  }

  /** `sqrt(SqDistR(a, b)) <= bound` on real points. */
  predicate WithinDistR(a: Point, b: Point, bound: real) {
    bound >= 0.0 && SqDistR(a, b) <= bound * bound
  }

  lemma SqDistSymmetric(a: Pos, b: Pos)
    ensures SqDist(a, b) == SqDist(b, a)
  {
    assert (a.x - b.x) * (a.x - b.x) == (b.x - a.x) * (b.x - a.x);
    assert (a.y - b.y) * (a.y - b.y) == (b.y - a.y) * (b.y - a.y);
  }
}
