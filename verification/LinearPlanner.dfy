/** The linear planner: equal steps from start to end, no longer than the speed allows. */
module LinearPlanner {
  import opened Motion
  import opened Geometry

  // Times are in seconds after the planning began.
  datatype TrajectoryPoint = TrajectoryPoint(position: Point, velocity: Velocity, at: real)

  const NEAR := 0.001

  function Part(i: int, n: int): real
    requires n > 0
  {
    i as real / n as real
  }

  function AtLeast(n: int, low: int): int {
    if n < low then low else n
  }

  function LinearSteps(d: real, v: real): (n: int)
    requires v != 0.0
    ensures n >= 10
  {
    AtLeast(Ceil(d / (v * 0.01)), 10)
  }

  function LinearPoint(start: Point, end: Point, velocity: Velocity, d: real, steps: int, i: int): TrajectoryPoint
    requires velocity.linear != 0.0 && steps > 0
  {
    TrajectoryPoint(Along(start, end, Part(i, steps)), velocity, Mul(Part(i, steps), Quotient(d, velocity.linear)))
  }

  function LinearPlan(sqrt: real -> real, start: Point, end: Point, velocity: Velocity): seq<TrajectoryPoint>
    requires velocity.linear != 0.0
  {
    var d := Distance(sqrt, start, end);
    if d < NEAR then [TrajectoryPoint(end, STILL, 0.0)]
    else
      var steps := LinearSteps(d, velocity.linear);
      seq(steps + 1, i requires 0 <= i <= steps => LinearPoint(start, end, velocity, d, steps, i))
  }

  /** Fills the trajectory point by point. */
  method PlanLinear(sqrt: real -> real, start: Point, end: Point, velocity: Velocity) returns (trajectory: seq<TrajectoryPoint>)
    requires velocity.linear != 0.0
    ensures trajectory == LinearPlan(sqrt, start, end, velocity)
  {
    var distance := sqrt(Distance2(start, end));
    if distance < NEAR { return [TrajectoryPoint(end, STILL, 0.0)]; }
    var steps := Ceil(distance / (velocity.linear * 0.01));
    if steps < 10 { steps := 10; }
    var points := new TrajectoryPoint[steps + 1];
    for i := 0 to steps + 1
      invariant forall k :: 0 <= k < i ==> points[k] == LinearPoint(start, end, velocity, distance, steps, k)
    {
      var t := i as real / steps as real;
      points[i] := TrajectoryPoint(Along(start, end, t), velocity, Mul(t, Quotient(distance, velocity.linear)));
    }
    return points[..];
  }

  lemma PartBounds(i: int, n: int)
    requires n > 0 && 0 <= i <= n
    ensures 0.0 <= Part(i, n) <= 1.0
    ensures i == 0 ==> Part(i, n) == 0.0
    ensures i == n ==> Part(i, n) == 1.0
  {
  }

  lemma PartGap(i: int, n: int)
    requires n > 0
    ensures Part(i + 1, n) - Part(i, n) == Part(1, n)
  {
  }

  lemma PartOrder(i: int, j: int, n: int)
    requires n > 0 && i <= j
    ensures Part(i, n) <= Part(j, n)
  {
  }

  lemma MulOrder(a: real, b: real, c: real)
    requires a <= b && c >= 0.0
    ensures Mul(a, c) <= Mul(b, c)
  {
  }

  lemma MulUnits(a: real)
    ensures Mul(0.0, a) == 0.0 && Mul(1.0, a) == a
  {
  }

  // The number of steps covers the distance at the speed's hundredth per step.
  lemma EnoughSteps(d: real, v: real)
    requires v > 0.0
    ensures Mul(LinearSteps(d, v) as real, v * 0.01) >= d
  {
    var w := v * 0.01;
    var q := d / w;
    var n := LinearSteps(d, v) as real;
    assert n >= q;
    MulOrder(q, n, w);
    assert Mul(q, w) == d;
  }

  lemma NoSpareStep(d: real, v: real)
    requires v > 0.0
    ensures LinearSteps(d, v) == 10 || (LinearSteps(d, v) - 1) as real < 100.0 * Quotient(d, v)
  {
    assert d / (v * 0.01) == 100.0 * (d / v);
  }

  lemma StrictOrder(a: real, b: real, c: real)
    requires c > 0.0
    ensures a > b ==> Mul(a, c) > Mul(b, c)
  {
    if a > b { SameSign(a - b, c); }
  }

  lemma MulSwap(a: real, b: real)
    ensures Mul(a, b) == Mul(b, a)
  {
  }

  lemma QuotientBound(d: real, n: real, w: real)
    requires n > 0.0 && Mul(n, w) >= d
    ensures d / n <= w
  {
    assert Mul(d / n, n) == d;
    hide Mul;
    MulSwap(n, w);
    StrictOrder(d / n, w, n);
  }

  // One step: its length, its duration, and how they go together.
  lemma StepOfPlan(d: real, v: real, n: int)
    requires v > 0.0 && d >= 0.0 && n > 0 && Mul(n as real, v * 0.01) >= d
    ensures var gap := Mul(Part(1, n), Quotient(d, v));
            Mul(Part(1, n), d) == Mul(v, gap) && Mul(Part(1, n), d) <= v / 100.0 && 0.0 <= gap <= 0.01
  {
    var p, q := Part(1, n), Quotient(d, v);
    assert Mul(v, q) == d;
    assert Mul(p, Mul(v, q)) == Mul(v, Mul(p, q));
    assert p * d == d / n as real;
    QuotientBound(d, n as real, v * 0.01);
    GapBound(Mul(p, q), v);
    MulNonNegative(p, q);
  }

  lemma MulNonNegative(a: real, b: real)
    requires a >= 0.0 && b >= 0.0
    ensures Mul(a, b) >= 0.0
  {
  }

  lemma GapBound(gap: real, v: real)
    requires v > 0.0 && Mul(v, gap) <= v * 0.01
    ensures gap <= 0.01
  {
    MulSwap(v, gap);
    StrictOrder(gap, 0.01, v);
  }

  // ---------------------------------------------------------------- the plan as a whole

  /**
   A linear plan at a positive speed: it starts at the start and ends at the end, every
   point lies on the segment between them, and neighbouring points are equally far apart,
   by no more than a hundredth of the speed, and no more than ten milliseconds, distance
   being speed times time.
   */
  lemma LinearPlanIsSteady(sqrt: real -> real, start: Point, end: Point, velocity: Velocity) returns (step: real, gap: real)
    requires IsSquareRoot(sqrt) && velocity.linear > 0.0 && Distance(sqrt, start, end) >= NEAR
    ensures var plan := LinearPlan(sqrt, start, end, velocity);
            && |plan| >= 11 && plan[0].position == start && plan[|plan| - 1].position == end && plan[0].at == 0.0
            && (forall i :: 0 <= i < |plan| ==> OnSegment(start, end, plan[i].position) && plan[i].velocity == velocity)
            && (forall i :: 0 <= i < |plan| - 1 ==>
                  && Distance2(plan[i].position, plan[i + 1].position) == Square(step)
                  && plan[i + 1].at - plan[i].at == gap)
    ensures 0.0 <= step <= velocity.linear / 100.0 && 0.0 <= gap <= 0.01 && step == Mul(velocity.linear, gap)
    ensures |LinearPlan(sqrt, start, end, velocity)| == 11 || (|LinearPlan(sqrt, start, end, velocity)| - 2) as real < 100.0 * Quotient(Distance(sqrt, start, end), velocity.linear)
  {
    var d, v := Distance(sqrt, start, end), velocity.linear;
    var n := LinearSteps(d, v);
    var plan := LinearPlan(sqrt, start, end, velocity);
    DistancePositive(sqrt, start, end);
    EnoughSteps(d, v);
    NoSpareStep(d, v);
    StepOfPlan(d, v, n);
    step, gap := Mul(Part(1, n), d), Mul(Part(1, n), Quotient(d, v));
    MulNonNegative(v, gap);
    PlanEnds(start, end, velocity, d, n);
    hide Mul, Square, Distance2, Along, Mix, LinearSteps, Part, IsSquareRoot;
    forall i | 0 <= i < |plan| ensures OnSegment(start, end, plan[i].position) && plan[i].velocity == velocity {
      PartBounds(i, n);
    }
    forall i | 0 <= i < |plan| - 1
      ensures Distance2(plan[i].position, plan[i + 1].position) == Square(step) && plan[i + 1].at - plan[i].at == gap
    {
      NeighbouringPoints(start, end, velocity, d, n, i);
    }
  }

  lemma PlanEnds(start: Point, end: Point, velocity: Velocity, d: real, n: int)
    requires velocity.linear != 0.0 && n > 0
    ensures LinearPoint(start, end, velocity, d, n, 0).position == start && LinearPoint(start, end, velocity, d, n, 0).at == 0.0
    ensures LinearPoint(start, end, velocity, d, n, n).position == end
  {
    PartBounds(0, n); PartBounds(n, n);
    hide Mul, Part;
    MulUnits(end.x - start.x); MulUnits(end.y - start.y); MulUnits(end.z - start.z);
    MulUnits(Quotient(d, velocity.linear));
  }

  lemma NeighbouringPoints(start: Point, end: Point, velocity: Velocity, d: real, n: int, i: int)
    requires velocity.linear != 0.0 && n > 0 && Distance2(start, end) == Square(d)
    ensures var p, q := LinearPoint(start, end, velocity, d, n, i), LinearPoint(start, end, velocity, d, n, i + 1);
            && Distance2(p.position, q.position) == Square(Mul(Part(1, n), d))
            && q.at - p.at == Mul(Part(1, n), Quotient(d, velocity.linear))
  {
    PartGap(i, n);
    hide Mul, Square, Distance2, Along, Part;
    AlongGap(start, end, Part(i, n), Part(i + 1, n));
    SquareOfProduct(Part(1, n), d);
    SubtractFactors(Part(i, n), Part(i + 1, n), Quotient(d, velocity.linear));
  }

  lemma MixOrder(a: real, b: real, s: real, t: real)
    requires s <= t
    ensures a <= b ==> Mix(a, b, s) <= Mix(a, b, t)
    ensures b <= a ==> Mix(a, b, t) <= Mix(a, b, s)
  {
    SubtractFactors(s, t, b - a);
    if a <= b { MulNonNegative(t - s, b - a); } else { MulNonNegative(t - s, a - b); }
  }

  /** Along the plan no coordinate turns back. */
  lemma LinearPlanIsMonotone(sqrt: real -> real, start: Point, end: Point, velocity: Velocity, i: nat, j: nat)
    requires velocity.linear != 0.0 && i <= j < |LinearPlan(sqrt, start, end, velocity)|
    ensures var p, q := LinearPlan(sqrt, start, end, velocity)[i].position, LinearPlan(sqrt, start, end, velocity)[j].position;
            && (start.x <= end.x ==> p.x <= q.x) && (end.x <= start.x ==> q.x <= p.x)
            && (start.y <= end.y ==> p.y <= q.y) && (end.y <= start.y ==> q.y <= p.y)
            && (start.z <= end.z ==> p.z <= q.z) && (end.z <= start.z ==> q.z <= p.z)
  {
    var d := Distance(sqrt, start, end);
    if d >= NEAR {
      var n := LinearSteps(d, velocity.linear);
      PartOrder(i, j, n);
      hide Mul, Part, Mix, LinearSteps;
      MixOrder(start.x, end.x, Part(i, n), Part(j, n));
      MixOrder(start.y, end.y, Part(i, n), Part(j, n));
      MixOrder(start.z, end.z, Part(i, n), Part(j, n));
    }
  }

  /** A box that holds both ends holds every point of the plan, at any speed. */
  lemma LinearPlanInsideBox(sqrt: real -> real, start: Point, end: Point, velocity: Velocity, b: Box, i: nat)
    requires velocity.linear != 0.0 && Inside(b, start) && Inside(b, end)
    requires i < |LinearPlan(sqrt, start, end, velocity)|
    ensures Inside(b, LinearPlan(sqrt, start, end, velocity)[i].position)
  {
    var d := Distance(sqrt, start, end);
    if d >= NEAR {
      var n := LinearSteps(d, velocity.linear);
      PartBounds(i, n);
      assert OnSegment(start, end, Along(start, end, Part(i, n)));
      hide Along, Part, Mul, LinearSteps;
      SegmentInsideBox(b, start, end, Along(start, end, Part(i, n)));
    }
  }
}
