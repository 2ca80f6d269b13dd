/** Segments, square roots and rounding: what both planners compute with. */
module Geometry {
  import opened Motion

  // The square root is the mathematics library's; this is all that is used of it.
  ghost predicate IsSquareRoot(sqrt: real -> real) {
    forall x :: x >= 0.0 ==> sqrt(x) >= 0.0 && Square(sqrt(x)) == x
  }

  // Products are named so that each proof says which of their laws it uses.
  function Mul(a: real, b: real): real { a * b }

  function Quotient(a: real, b: real): real
    requires b != 0.0
  {
    a / b
  }

  function Square(x: real): real { Mul(x, x) }

  function Distance2(p: Point, q: Point): (d: real)
    ensures d >= 0.0
  {
    SquareSign(q.x - p.x); SquareSign(q.y - p.y); SquareSign(q.z - p.z);
    Square(q.x - p.x) + Square(q.y - p.y) + Square(q.z - p.z)
  }

  function Distance(sqrt: real -> real, p: Point, q: Point): real {
    sqrt(Distance2(p, q))
  }

  // The value, and the point, a given part of the way from one to another.
  function Mix(a: real, b: real, t: real): real {
    a + Mul(t, b - a)
  }

  function Along(p: Point, q: Point, t: real): Point {
    Point(Mix(p.x, q.x, t), Mix(p.y, q.y, t), Mix(p.z, q.z, t))
  }

  ghost predicate OnSegment(p: Point, q: Point, r: Point) {
    exists t: real :: 0.0 <= t <= 1.0 && r == Along(p, q, t)
  }

  function Ceil(x: real): (n: int)
    ensures n as real - 1.0 < x <= n as real
  {
    -(-x).Floor
  }

  // Conversion to an integer drops the fraction, towards zero.
  function Truncate(x: real): (n: int)
    ensures x >= 0.0 ==> n as real <= x < n as real + 1.0
    ensures x <= 0.0 ==> n as real - 1.0 < x <= n as real
  {
    if x >= 0.0 then x.Floor else -(-x).Floor
  }

  lemma SquareOfProduct(a: real, b: real)
    ensures Square(Mul(a, b)) == Mul(Square(a), Square(b))
  {
  }

  lemma SubtractFactors(s: real, t: real, d: real)
    ensures Mul(t, d) - Mul(s, d) == Mul(t - s, d)
  {
  }

  lemma CoordinateGap(a: real, b: real, s: real, t: real)
    ensures Square(Mix(a, b, t) - Mix(a, b, s)) == Mul(Square(t - s), Square(b - a))
  {
    hide Mul, Square;
    SubtractFactors(s, t, b - a);
    SquareOfProduct(t - s, b - a);
  }

  /** Two points of a segment are as far apart as their parts of the way differ. */
  lemma AlongGap(p: Point, q: Point, s: real, t: real)
    ensures Distance2(Along(p, q, s), Along(p, q, t)) == Mul(Square(t - s), Distance2(p, q))
  {
    CoordinateGap(p.x, q.x, s, t);
    CoordinateGap(p.y, q.y, s, t);
    CoordinateGap(p.z, q.z, s, t);
    Distribute(Square(t - s), Square(q.x - p.x), Square(q.y - p.y), Square(q.z - p.z));
    hide Square, Mix, Mul;
  }

  lemma Distribute(k: real, a: real, b: real, c: real)
    ensures Mul(k, a) + Mul(k, b) + Mul(k, c) == Mul(k, a + b + c)
  {
  }

  // A nonzero factor can be cancelled.
  lemma Cancel(a: real, b: real, c: real)
    requires Mul(a, c) == Mul(b, c) && c != 0.0
    ensures a == b
  {
    assert (a - b) * c == 0.0;
  }

  lemma SameSign(a: real, b: real)
    requires (a > 0.0 && b > 0.0) || (a < 0.0 && b < 0.0)
    ensures Mul(a, b) > 0.0
  {
  }

  lemma SquareSign(x: real)
    ensures Square(x) >= 0.0
    ensures Square(x) == 0.0 <==> x == 0.0
  {
    if x != 0.0 {
      hide Mul;
      SameSign(x, x);
    }
  }

  /** On a segment with two different ends, a part of the way outside [0, 1] leaves the segment. */
  lemma OnSegmentIff(p: Point, q: Point, t: real)
    requires p != q
    ensures OnSegment(p, q, Along(p, q, t)) <==> 0.0 <= t <= 1.0
  {
    hide Along;
    if OnSegment(p, q, Along(p, q, t)) {
      var s: real :| 0.0 <= s <= 1.0 && Along(p, q, t) == Along(p, q, s);
      AlongInjective(p, q, s, t);
    }
  }

  lemma AlongInjective(p: Point, q: Point, s: real, t: real)
    requires p != q && Along(p, q, s) == Along(p, q, t)
    ensures s == t
  {
    assert p.x != q.x || p.y != q.y || p.z != q.z;
    MixInjective(p.x, q.x, s, t);
    MixInjective(p.y, q.y, s, t);
    MixInjective(p.z, q.z, s, t);
    hide Mix;
  }

  lemma MixInjective(a: real, b: real, s: real, t: real)
    ensures Mix(a, b, s) == Mix(a, b, t) && a != b ==> s == t
  {
    if Mix(a, b, s) == Mix(a, b, t) && a != b { Cancel(s, t, b - a); }
  }

  lemma CoordinateBetween(a: real, b: real, t: real)
    requires 0.0 <= t <= 1.0
    ensures a <= b ==> a <= Mix(a, b, t) <= b
    ensures b <= a ==> b <= Mix(a, b, t) <= a
  {
    hide Mul;
    UnitTimes(t, if a <= b then b - a else a - b);
    assert a > b ==> -(a - b) == b - a;
  }

  lemma UnitTimes(t: real, c: real)
    requires 0.0 <= t <= 1.0 && c >= 0.0
    ensures 0.0 <= Mul(t, c) <= c && Mul(t, -c) == -Mul(t, c)
  {
    assert c - t * c == (1.0 - t) * c;
  }

  // A box with its sides along the axes.
  datatype Box = Box(low: Point, high: Point)

  predicate Inside(b: Box, p: Point) {
    b.low.x <= p.x <= b.high.x && b.low.y <= p.y <= b.high.y && b.low.z <= p.z <= b.high.z
  }

  /** A box that holds both ends of a segment holds the segment. */
  lemma SegmentInsideBox(b: Box, p: Point, q: Point, r: Point)
    requires Inside(b, p) && Inside(b, q) && OnSegment(p, q, r)
    ensures Inside(b, r)
  {
    var t: real :| 0.0 <= t <= 1.0 && r == Along(p, q, t);
    CoordinateBetween(p.x, q.x, t);
    CoordinateBetween(p.y, q.y, t);
    CoordinateBetween(p.z, q.z, t);
    hide Mix;
  }

  lemma DistancePositive(sqrt: real -> real, p: Point, q: Point)
    requires IsSquareRoot(sqrt)
    ensures Distance(sqrt, p, q) >= 0.0 && Square(Distance(sqrt, p, q)) == Distance2(p, q)
    ensures Distance(sqrt, p, q) > 0.0 ==> p != q
  {
    hide Mul;
    SquareSign(Distance(sqrt, p, q));
    SquareSign(p.x - p.x);
  }

  /** The distance of two points is the length of the line between them. */
  lemma DistanceIsLength(sqrt: real -> real, p: Point, q: Point)
    requires IsSquareRoot(sqrt)
    ensures var d := Distance(sqrt, p, q);
            d >= 0.0 && d * d == (q.x - p.x) * (q.x - p.x) + (q.y - p.y) * (q.y - p.y) + (q.z - p.z) * (q.z - p.z)
  {
    DistancePositive(sqrt, p, q);
    SquareIs(Distance(sqrt, p, q)); SquareIs(q.x - p.x); SquareIs(q.y - p.y); SquareIs(q.z - p.z);
    hide Mul, Square;
  }

  lemma SquareIs(x: real)
    ensures Square(x) == x * x
  {
  }
}
