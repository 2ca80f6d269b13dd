/**
 The point-to-point planner: a triangular profile when the speed cannot be reached on the
 way, a three-stage one otherwise. Its formulas do not end at the target in general; what
 is proved is how far the waypoints go, and so exactly when they lie between start and end
 or between any two limits.
 */
module PointToPointPlanner {
  import opened Motion
  import opened Geometry
  import opened LinearPlanner

  function AccelDistance(v: real, a: real): real
    requires a != 0.0
  {
    Mul(Mul(0.5 * a, Quotient(v, a)), Quotient(v, a))
  }

  predicate Triangular(v: real, a: real, d: real)
    requires a != 0.0
  {
    2.0 * AccelDistance(v, a) >= d
  }

  function TriangularSteps(sqrt: real -> real, d: real, a: real): (n: int)
    requires a != 0.0
    ensures n >= 5
  {
    AtLeast(Truncate(sqrt(Quotient(d, a)) / 0.01), 5)
  }

  function TriangularPoint(start: Point, end: Point, a: real, d: real, half: real, n: int, i: int): TrajectoryPoint
    requires d != 0.0 && n > 0
  {
    var t := Part(i, n);
    TrajectoryPoint(Along(start, end, Quotient(Mul(Mul(0.5 * a, t), t), d)),
                    Velocity(if i > n / 2 then Mul(a, 1.0 - t) else Mul(a, t), 0.0), Mul(t * 2.0, half))
  }

  function StageSteps(v: real, a: real): (n: int)
    requires a != 0.0
    ensures n >= 10
  {
    AtLeast(Truncate(Quotient(v, a) / 0.01), 10)
  }

  // How far the waypoint of a stage is from the start: speeding up, steady, slowing down.
  function StageDistance(stage: int, v: real, a: real, t: real): real
    requires a != 0.0
  {
    var tAccel := Quotient(v, a);
    if stage == 0 then Mul(Mul(Mul(0.5 * a, t), tAccel), t)
    else if stage == 1 then AccelDistance(v, a) + Mul(Mul(v, t), tAccel)
    else AccelDistance(v, a) + Mul(v, tAccel) + Mul(Mul(Mul(0.5 * a, t), tAccel), 1.0 - t)
  }

  function StageVelocity(stage: int, velocity: Velocity, a: real, t: real): Velocity {
    if stage == 0 then Velocity(Mul(a, t), 0.0)
    else if stage == 1 then velocity
    else Velocity(Mul(velocity.linear, 1.0 - t), 0.0)
  }

  function StagePoint(start: Point, end: Point, velocity: Velocity, a: real, d: real, n: int, stage: int, i: int): TrajectoryPoint
    requires a != 0.0 && d != 0.0 && n > 0
  {
    var t := Part(i, n);
    TrajectoryPoint(Along(start, end, Quotient(StageDistance(stage, velocity.linear, a, t), d)),
                    StageVelocity(stage, velocity, a, t), (stage * n + i) as real * 0.01)
  }

  function TriangularPlan(start: Point, end: Point, a: real, d: real, half: real, n: nat): seq<TrajectoryPoint>
    requires d != 0.0 && n > 0
  {
    seq(n + 1, i requires 0 <= i <= n => TriangularPoint(start, end, a, d, half, n, i))
  }

  function StagePlan(start: Point, end: Point, velocity: Velocity, a: real, d: real, n: nat, stage: int): seq<TrajectoryPoint>
    requires a != 0.0 && d != 0.0 && n > 0
  {
    seq(n + 1, i requires 0 <= i <= n => StagePoint(start, end, velocity, a, d, n, stage, i))
  }

  // The first so many stages, one after the other.
  function Stages(start: Point, end: Point, velocity: Velocity, a: real, d: real, n: nat, stages: nat): seq<TrajectoryPoint>
    requires a != 0.0 && d != 0.0 && n > 0
  {
    if stages == 0 then []
    else Stages(start, end, velocity, a, d, n, stages - 1) + StagePlan(start, end, velocity, a, d, n, stages - 1)
  }

  function PointToPointPlan(sqrt: real -> real, start: Point, end: Point, velocity: Velocity, accel: Velocity): seq<TrajectoryPoint>
    requires accel.linear != 0.0
  {
    var d, v, a := Distance(sqrt, start, end), velocity.linear, accel.linear;
    if d < NEAR then [TrajectoryPoint(end, STILL, 0.0)]
    else if Triangular(v, a, d) then TriangularPlan(start, end, a, d, sqrt(Quotient(d, a)), TriangularSteps(sqrt, d, a))
    else Stages(start, end, velocity, a, d, StageSteps(v, a), 3)
  }

  // The triangular branch: the waypoints are appended one by one.
  method PlanTriangle(start: Point, end: Point, a: real, distance: real, tHalf: real, steps: nat) returns (trajectory: seq<TrajectoryPoint>)
    requires distance != 0.0 && steps > 0
    ensures trajectory == TriangularPlan(start, end, a, distance, tHalf, steps)
  {
    hide Along, Part, Mul, Quotient;
    trajectory := [];
    for i := 0 to steps + 1
      invariant |trajectory| == i
      invariant forall k :: 0 <= k < i ==> trajectory[k] == TriangularPoint(start, end, a, distance, tHalf, steps, k)
    {
      var t := Part(i, steps);
      var dist := Mul(Mul(0.5 * a, t), t);
      var speed := Mul(a, t);
      if i > steps / 2 { speed := Mul(a, 1.0 - t); }
      trajectory := trajectory + [TrajectoryPoint(Along(start, end, Quotient(dist, distance)), Velocity(speed, 0.0), Mul(t * 2.0, tHalf))];
    }
  }

  // The other branch: three stages of as many steps each.
  method PlanStages(start: Point, end: Point, velocity: Velocity, a: real, distance: real, tAccel: real, dAccel: real, perStage: nat)
    returns (trajectory: seq<TrajectoryPoint>)
    requires a != 0.0 && distance != 0.0 && perStage > 0
    requires tAccel == Quotient(velocity.linear, a) && dAccel == AccelDistance(velocity.linear, a)
    ensures trajectory == Stages(start, end, velocity, a, distance, perStage, 3)
  {
    hide AccelDistance, Along, Part, Mul, Quotient;
    trajectory := [];
    for stage := 0 to 3
      invariant trajectory == Stages(start, end, velocity, a, distance, perStage, stage)
    {
      ghost var before := trajectory;
      for i := 0 to perStage + 1
        invariant |trajectory| == |before| + i && trajectory[..|before|] == before
        invariant forall k :: 0 <= k < i ==> trajectory[|before| + k] == StagePoint(start, end, velocity, a, distance, perStage, stage, k)
      {
        var t := Part(i, perStage);
        var dist: real;
        var vel: Velocity;
        match stage {
          case 0 =>
            dist := Mul(Mul(Mul(0.5 * a, t), tAccel), t);
            vel := Velocity(Mul(a, t), 0.0);
          case 1 =>
            dist := dAccel + Mul(Mul(velocity.linear, t), tAccel);
            vel := velocity;
          case _ =>
            dist := dAccel + Mul(velocity.linear, tAccel) + Mul(Mul(Mul(0.5 * a, t), tAccel), 1.0 - t);
            vel := Velocity(Mul(velocity.linear, 1.0 - t), 0.0);
        }
        trajectory := trajectory + [TrajectoryPoint(Along(start, end, Quotient(dist, distance)), vel, (stage * perStage + i) as real * 0.01)];
      }
      assert trajectory == before + StagePlan(start, end, velocity, a, distance, perStage, stage);
    }
  }

  /** Measures the distance and picks the profile. */
  method PlanPointToPoint(sqrt: real -> real, start: Point, end: Point, velocity: Velocity, accel: Velocity)
    returns (trajectory: seq<TrajectoryPoint>)
    requires accel.linear != 0.0
    ensures trajectory == PointToPointPlan(sqrt, start, end, velocity, accel)
  {
    hide Distance2, TriangularPlan, Stages, Mul, Quotient;
    var a := accel.linear;
    var distance := sqrt(Distance2(start, end));
    if distance < NEAR { return [TrajectoryPoint(end, STILL, 0.0)]; }
    var tAccel := Quotient(velocity.linear, a);
    var dAccel := Mul(Mul(0.5 * a, tAccel), tAccel);
    if 2.0 * dAccel >= distance {
      var tHalf := sqrt(Quotient(distance, a));
      var steps := Truncate(tHalf / 0.01);
      if steps < 5 { steps := 5; }
      trajectory := PlanTriangle(start, end, a, distance, tHalf, steps);
    } else {
      var perStage := Truncate(tAccel / 0.01);
      if perStage < 10 { perStage := 10; }
      trajectory := PlanStages(start, end, velocity, a, distance, tAccel, dAccel, perStage);
    }
  }

  // ---------------------------------------------------------------- laws used below

  lemma QuotientUnit(x: real, d: real)
    requires d > 0.0
    ensures 0.0 <= Quotient(x, d) <= 1.0 <==> 0.0 <= x <= d
  {
    var r := Quotient(x, d);
    assert Mul(r, d) == x;
    hide Mul, Quotient;
    MulUnits(d);
    StrictOrder(0.0, r, d);
    StrictOrder(r, 1.0, d);
    MulOrderIff(0.0, r, d);
    MulOrderIff(r, 1.0, d);
  }

  lemma MulOrderIff(a: real, b: real, c: real)
    requires c > 0.0
    ensures Mul(a, c) <= Mul(b, c) <==> a <= b
  {
    StrictOrder(a, b, c);
    if a <= b { MulOrder(a, b, c); }
  }

  // A waypoint is on the way exactly when it has gone between nothing and the whole distance.
  lemma OnTheWay(sqrt: real -> real, start: Point, end: Point, x: real)
    requires IsSquareRoot(sqrt) && Distance(sqrt, start, end) >= NEAR
    ensures OnSegment(start, end, Along(start, end, Quotient(x, Distance(sqrt, start, end)))) <==> 0.0 <= x <= Distance(sqrt, start, end)
  {
    var d := Distance(sqrt, start, end);
    DistancePositive(sqrt, start, end);
    hide Mul, Quotient, OnSegment, Along, Distance, IsSquareRoot;
    QuotientUnit(x, d);
    OnSegmentIff(start, end, Quotient(x, d));
  }

  ghost predicate StaysOnSegment(start: Point, end: Point, plan: seq<TrajectoryPoint>) {
    forall i :: 0 <= i < |plan| ==> OnSegment(start, end, plan[i].position)
  }

  lemma Halves(a: real, t: real)
    ensures Mul(0.5 * a, t) == 0.5 * Mul(a, t)
  {
  }

  lemma Associate(a: real, b: real, c: real)
    ensures Mul(Mul(a, b), c) == Mul(a, Mul(b, c))
  {
  }

  // What the slowing stage adds at its furthest waypoint, the middle one.
  function Peak(n: nat): real
    requires n > 0
  {
    Mul(Part(n / 2, n), 1.0 - Part(n / 2, n))
  }

  lemma PeakDifference(s: real, t: real)
    ensures Mul(s, 1.0 - s) - Mul(t, 1.0 - t) == Mul(s - t, 1.0 - s - t)
  {
  }

  lemma NotOpposite(a: real, b: real)
    requires (a >= 0.0 && b >= 0.0) || (a <= 0.0 && b <= 0.0)
    ensures Mul(a, b) >= 0.0
  {
    if a != 0.0 && b != 0.0 {
      hide Mul;
      SameSign(a, b);
    }
  }

  lemma PartDifference(i: int, j: int, n: nat)
    requires n > 0
    ensures i >= j ==> Part(i, n) - Part(j, n) >= 0.0
    ensures i <= j ==> Part(i, n) - Part(j, n) <= 0.0
    ensures 1.0 - Part(i, n) == Part(n - i, n)
  {
    if i >= j { PartOrder(j, i, n); }
    if i <= j { PartOrder(i, j, n); }
    PartOfRest(i, n);
  }

  lemma PartOfRest(i: int, n: nat)
    requires n > 0
    ensures 1.0 - Part(i, n) == Part(n - i, n)
  {
    PartTimes(i, n);
    PartTimes(n - i, n);
    hide Mul, Part;
    MulUnits(n as real);
    SubtractFactors(Part(i, n), 1.0, n as real);
    Cancel(1.0 - Part(i, n), Part(n - i, n), n as real);
  }

  lemma PartTimes(i: int, n: nat)
    requires n > 0
    ensures Mul(Part(i, n), n as real) == i as real
  {
  }

  lemma PeakIsHighest(i: int, n: nat)
    requires 0 <= i <= n && n > 0
    ensures 0.0 <= Mul(Part(i, n), 1.0 - Part(i, n)) <= Peak(n) <= 0.25
  {
    var m := n / 2;
    PartBounds(i, n);
    PartDifference(m, i, n);
    PartDifference(n - m, i, n);
    PartDifference(i, i, n);
    hide Mul, Part;
    NotOpposite(Part(i, n), 1.0 - Part(i, n));
    PeakDifference(Part(m, n), Part(i, n));
    NotOpposite(Part(m, n) - Part(i, n), 1.0 - Part(m, n) - Part(i, n));
    PeakDifference(0.5, Part(m, n));
    NotOpposite(0.5 - Part(m, n), 1.0 - 0.5 - Part(m, n));
    HalfOfHalf();
  }

  lemma HalfOfHalf()
    ensures Mul(0.5, 1.0 - 0.5) == 0.25
  {
  }

  lemma SwapLast(a: real, b: real, c: real)
    ensures Mul(Mul(a, b), c) == Mul(Mul(a, c), b)
  {
  }

  lemma ThreeStages(start: Point, end: Point, velocity: Velocity, a: real, d: real, n: nat)
    requires a != 0.0 && d != 0.0 && n > 0
    ensures Stages(start, end, velocity, a, d, n, 3)
         == StagePlan(start, end, velocity, a, d, n, 0) + StagePlan(start, end, velocity, a, d, n, 1) + StagePlan(start, end, velocity, a, d, n, 2)
  {
    hide StagePlan;
    var s0 := StagePlan(start, end, velocity, a, d, n, 0);
    assert Stages(start, end, velocity, a, d, n, 0) == [];
    assert Stages(start, end, velocity, a, d, n, 1) == [] + s0 == s0;
    assert Stages(start, end, velocity, a, d, n, 2) == s0 + StagePlan(start, end, velocity, a, d, n, 1);
  }

  // ---------------------------------------------------------------- how far the plan goes

  function Min(x: real, y: real): real { if x <= y then x else y }

  function Max(x: real, y: real): real { if x <= y then y else x }

  // The waypoint is where one gets by going a distance x from start towards end.
  ghost predicate Gone(start: Point, end: Point, d: real, p: Point, x: real)
    requires d != 0.0
  {
    p == Along(start, end, Quotient(x, d))
  }

  /** Having gone a distance means being that far along each coordinate, in proportion. */
  lemma GoneIff(start: Point, end: Point, d: real, p: Point, x: real)
    requires d != 0.0
    ensures Gone(start, end, d, p, x)
       <==> (p.x - start.x) * d == x * (end.x - start.x) && (p.y - start.y) * d == x * (end.y - start.y) && (p.z - start.z) * d == x * (end.z - start.z)
  {
    MixIff(start.x, end.x, d, p.x, x);
    MixIff(start.y, end.y, d, p.y, x);
    MixIff(start.z, end.z, d, p.z, x);
    hide Mix, Quotient;
  }

  lemma MixIff(a: real, b: real, d: real, c: real, x: real)
    requires d != 0.0
    ensures c == Mix(a, b, Quotient(x, d)) <==> (c - a) * d == x * (b - a)
  {
    var w := Quotient(x, d) * (b - a);
    assert Mul(Quotient(x, d), b - a) == w && Quotient(x, d) * d == x;
    assert w * d == x * (b - a) by { assert w * d == Quotient(x, d) * d * (b - a); }
    if (c - a) * d == w * d { Cancel(c - a, w, d); }
  }

  ghost predicate GoneBetween(start: Point, end: Point, d: real, p: Point, lo: real, hi: real)
    requires d != 0.0
  {
    exists x: real :: lo <= x <= hi && Gone(start, end, d, p, x)
  }

  // The waypoints go at least so far and at most so far, and there is one at either bound.
  ghost predicate Reaches(start: Point, end: Point, d: real, plan: seq<TrajectoryPoint>, lo: real, hi: real)
    requires d != 0.0
  {
    && (forall i :: 0 <= i < |plan| ==> GoneBetween(start, end, d, plan[i].position, lo, hi))
    && (exists i :: 0 <= i < |plan| && Gone(start, end, d, plan[i].position, lo))
    && (exists i :: 0 <= i < |plan| && Gone(start, end, d, plan[i].position, hi))
  }

  lemma ReachesFrom(start: Point, end: Point, d: real, plan: seq<TrajectoryPoint>, x: real, i: nat, y: real, j: nat)
    requires d != 0.0 && i < |plan| && j < |plan|
    requires Gone(start, end, d, plan[i].position, x) && Gone(start, end, d, plan[j].position, y)
    requires forall k :: 0 <= k < |plan| ==> GoneBetween(start, end, d, plan[k].position, Min(x, y), Max(x, y))
    ensures Reaches(start, end, d, plan, Min(x, y), Max(x, y))
  {
    hide Gone, GoneBetween;
  }

  lemma ReachesConcat(start: Point, end: Point, d: real, p: seq<TrajectoryPoint>, lo: real, hi: real, q: seq<TrajectoryPoint>, low: real, high: real)
    requires d != 0.0 && Reaches(start, end, d, p, lo, hi) && Reaches(start, end, d, q, low, high)
    ensures Reaches(start, end, d, p + q, Min(lo, low), Max(hi, high))
  {
    hide Gone;
    assert forall i :: 0 <= i < |p| ==> (p + q)[i] == p[i];
    assert forall i :: 0 <= i < |q| ==> (p + q)[|p| + i] == q[i];
    forall k | 0 <= k < |p + q| ensures GoneBetween(start, end, d, (p + q)[k].position, Min(lo, low), Max(hi, high)) {
      if k < |p| { assert GoneBetween(start, end, d, p[k].position, lo, hi); }
      else { assert GoneBetween(start, end, d, q[k - |p|].position, low, high); }
    }
  }

  // A part of something lies between nothing and the whole of it.
  lemma PartBetween(t: real, c: real)
    requires 0.0 <= t <= 1.0
    ensures Min(0.0, c) <= Mul(t, c) <= Max(0.0, c) && Mul(c, t) == Mul(t, c)
    ensures t == 0.0 ==> Mul(t, c) == 0.0
    ensures t == 1.0 ==> Mul(t, c) == c
  {
    MulSwap(t, c);
    MulUnits(c);
    hide Mul;
    UnitTimes(t, if c >= 0.0 then c else -c);
  }

  lemma ProfileBetween(h: real, t: real)
    requires 0.0 <= t <= 1.0
    ensures Min(0.0, h) <= Mul(Mul(h, t), t) <= Max(0.0, h)
    ensures t == 0.0 ==> Mul(Mul(h, t), t) == 0.0
    ensures t == 1.0 ==> Mul(Mul(h, t), t) == h
  {
    hide Mul;
    PartBetween(t, h);
    PartBetween(t, Mul(h, t));
  }

  lemma TriangularReaches(start: Point, end: Point, a: real, d: real, half: real, n: nat)
    requires d != 0.0 && n > 0
    ensures Reaches(start, end, d, TriangularPlan(start, end, a, d, half, n), Min(0.0, 0.5 * a), Max(0.0, 0.5 * a))
  {
    var plan := TriangularPlan(start, end, a, d, half, n);
    hide Mul, Quotient, Along, Part;
    forall k | 0 <= k < |plan| ensures GoneBetween(start, end, d, plan[k].position, Min(0.0, 0.5 * a), Max(0.0, 0.5 * a)) {
      PartBounds(k, n);
      ProfileBetween(0.5 * a, Part(k, n));
      assert Gone(start, end, d, plan[k].position, Mul(Mul(0.5 * a, Part(k, n)), Part(k, n)));
    }
    PartBounds(0, n);
    PartBounds(n, n);
    ProfileBetween(0.5 * a, 0.0);
    ProfileBetween(0.5 * a, 1.0);
    ReachesFrom(start, end, d, plan, 0.0, 0, 0.5 * a, n);
  }

  // What full speed covers in the time it takes to reach it.
  function Stretch(v: real, a: real): real
    requires a != 0.0
  {
    Mul(v, Quotient(v, a))
  }

  // How far each stage goes, in terms of the speed and of that stretch.
  lemma StageForms(v: real, a: real, t: real)
    requires a != 0.0
    ensures var q := Stretch(v, a);
            && AccelDistance(v, a) == 0.5 * q
            && StageDistance(0, v, a, t) == Mul(Mul(0.5 * v, t), t)
            && StageDistance(1, v, a, t) == 0.5 * q + Mul(q, t)
            && StageDistance(2, v, a, t) == 1.5 * q + Mul(0.5 * v, Mul(t, 1.0 - t))
  {
    var T := Quotient(v, a);
    assert Mul(a, T) == v;
    hide Mul, Quotient;
    Halves(a, T);
    Halves(v, T);
    SwapLast(0.5 * a, t, T);
    SwapLast(v, t, T);
    Associate(0.5 * v, t, 1.0 - t);
  }

  lemma StretchSign(v: real, a: real)
    requires a != 0.0
    ensures a > 0.0 ==> Stretch(v, a) >= 0.0
    ensures a < 0.0 ==> Stretch(v, a) <= 0.0
  {
    var T := Quotient(v, a);
    assert Mul(a, T) == v;
    hide Mul, Quotient;
    SquareSign(T);
    Associate(a, T, T);
    if a > 0.0 { MulNonNegative(a, Square(T)); } else { Negated(a, Square(T)); MulNonNegative(-a, Square(T)); }
  }

  lemma Negated(a: real, b: real)
    ensures Mul(-a, b) == -Mul(a, b)
  {
  }

  lemma StageZeroReaches(start: Point, end: Point, velocity: Velocity, a: real, d: real, n: nat)
    requires a != 0.0 && d != 0.0 && n > 0
    ensures var x := 0.5 * velocity.linear;
            Reaches(start, end, d, StagePlan(start, end, velocity, a, d, n, 0), Min(0.0, x), Max(0.0, x))
  {
    var v := velocity.linear;
    var plan := StagePlan(start, end, velocity, a, d, n, 0);
    hide Mul, Quotient, Along, Part, StageDistance, StageVelocity, Stretch;
    forall k | 0 <= k < |plan| ensures GoneBetween(start, end, d, plan[k].position, Min(0.0, 0.5 * v), Max(0.0, 0.5 * v)) {
      PartBounds(k, n);
      StageForms(v, a, Part(k, n));
      ProfileBetween(0.5 * v, Part(k, n));
      assert Gone(start, end, d, plan[k].position, StageDistance(0, v, a, Part(k, n)));
    }
    PartBounds(0, n);
    PartBounds(n, n);
    StageForms(v, a, 0.0);
    StageForms(v, a, 1.0);
    ProfileBetween(0.5 * v, 0.0);
    ProfileBetween(0.5 * v, 1.0);
    ReachesFrom(start, end, d, plan, 0.0, 0, 0.5 * v, n);
  }

  lemma StageOneReaches(start: Point, end: Point, velocity: Velocity, a: real, d: real, n: nat)
    requires a != 0.0 && d != 0.0 && n > 0
    ensures var q := Stretch(velocity.linear, a);
            Reaches(start, end, d, StagePlan(start, end, velocity, a, d, n, 1), Min(0.5 * q, 1.5 * q), Max(0.5 * q, 1.5 * q))
  {
    var v, q := velocity.linear, Stretch(velocity.linear, a);
    var plan := StagePlan(start, end, velocity, a, d, n, 1);
    hide Mul, Quotient, Along, Part, StageDistance, StageVelocity, Stretch;
    forall k | 0 <= k < |plan| ensures GoneBetween(start, end, d, plan[k].position, Min(0.5 * q, 1.5 * q), Max(0.5 * q, 1.5 * q)) {
      PartBounds(k, n);
      StageForms(v, a, Part(k, n));
      PartBetween(Part(k, n), q);
      assert Gone(start, end, d, plan[k].position, StageDistance(1, v, a, Part(k, n)));
    }
    PartBounds(0, n);
    PartBounds(n, n);
    StageForms(v, a, 0.0);
    StageForms(v, a, 1.0);
    PartBetween(0.0, q);
    PartBetween(1.0, q);
    ReachesFrom(start, end, d, plan, 0.5 * q, 0, 1.5 * q, n);
  }

  lemma PeakBetween(h: real, i: int, n: nat)
    requires 0 <= i <= n && n > 0
    ensures var p := Mul(Part(i, n), 1.0 - Part(i, n));
            && Min(0.0, Mul(h, Peak(n))) <= Mul(h, p) <= Max(0.0, Mul(h, Peak(n)))
            && (i == 0 ==> Mul(h, p) == 0.0)
  {
    PeakIsHighest(i, n);
    PartBounds(0, n);
    var p, m := Mul(Part(i, n), 1.0 - Part(i, n)), if h >= 0.0 then h else -h;
    hide Mul, Part, Peak;
    MulUnits(1.0 - 0.0);
    MulUnits(h);
    MulOrder(p, Peak(n), m);
    MulSwap(p, h);
    MulSwap(Peak(n), h);
    MulSwap(p, m);
    MulSwap(Peak(n), m);
    MulSwap(0.0, h);
    MulNonNegative(m, p);
    Negated(h, p);
    Negated(h, Peak(n));
  }

  lemma StageTwoReaches(start: Point, end: Point, velocity: Velocity, a: real, d: real, n: nat)
    requires a != 0.0 && d != 0.0 && n > 0
    ensures var x := 1.5 * Stretch(velocity.linear, a);
            var y := x + Mul(0.5 * velocity.linear, Peak(n));
            Reaches(start, end, d, StagePlan(start, end, velocity, a, d, n, 2), Min(x, y), Max(x, y))
  {
    var v, q := velocity.linear, Stretch(velocity.linear, a);
    var y := 1.5 * q + Mul(0.5 * v, Peak(n));
    var plan := StagePlan(start, end, velocity, a, d, n, 2);
    assert Peak(n) == Mul(Part(n / 2, n), 1.0 - Part(n / 2, n));
    hide Mul, Quotient, Along, Part, StageDistance, StageVelocity, Stretch, Peak;
    forall k | 0 <= k < |plan| ensures GoneBetween(start, end, d, plan[k].position, Min(1.5 * q, y), Max(1.5 * q, y)) {
      StageForms(v, a, Part(k, n));
      PeakBetween(0.5 * v, k, n);
      assert Gone(start, end, d, plan[k].position, StageDistance(2, v, a, Part(k, n)));
    }
    StageForms(v, a, Part(0, n));
    StageForms(v, a, Part(n / 2, n));
    PeakBetween(0.5 * v, 0, n);
    ReachesFrom(start, end, d, plan, 1.5 * q, 0, y, n / 2);
  }

  // The shortest and the longest distance a waypoint of the stages has gone.
  function LeastOfStages(v: real, a: real, n: nat): real
    requires a != 0.0 && n > 0
  {
    var x := 1.5 * Stretch(v, a);
    Min(Min(Min(0.0, 0.5 * v), Min(0.5 * Stretch(v, a), x)), Min(x, x + Mul(0.5 * v, Peak(n))))
  }

  function FurthestOfStages(v: real, a: real, n: nat): real
    requires a != 0.0 && n > 0
  {
    var x := 1.5 * Stretch(v, a);
    Max(Max(Max(0.0, 0.5 * v), Max(0.5 * Stretch(v, a), x)), Max(x, x + Mul(0.5 * v, Peak(n))))
  }

  lemma StagesReach(start: Point, end: Point, velocity: Velocity, a: real, d: real, n: nat)
    requires a != 0.0 && d != 0.0 && n > 0
    ensures Reaches(start, end, d, Stages(start, end, velocity, a, d, n, 3), LeastOfStages(velocity.linear, a, n), FurthestOfStages(velocity.linear, a, n))
  {
    var v, q := velocity.linear, Stretch(velocity.linear, a);
    var x := 1.5 * q;
    var y := x + Mul(0.5 * v, Peak(n));
    var s0, s1, s2 := StagePlan(start, end, velocity, a, d, n, 0), StagePlan(start, end, velocity, a, d, n, 1), StagePlan(start, end, velocity, a, d, n, 2);
    hide *;
    StageZeroReaches(start, end, velocity, a, d, n);
    StageOneReaches(start, end, velocity, a, d, n);
    StageTwoReaches(start, end, velocity, a, d, n);
    ThreeStages(start, end, velocity, a, d, n);
    StageBounds(v, a, n);
    ReachesThree(start, end, d, s0, Min(0.0, 0.5 * v), Max(0.0, 0.5 * v), s1, Min(0.5 * q, x), Max(0.5 * q, x), s2, Min(x, y), Max(x, y));
  }

  lemma ReachesThree(start: Point, end: Point, d: real, p: seq<TrajectoryPoint>, lo: real, hi: real, q: seq<TrajectoryPoint>, low: real, high: real,
                     r: seq<TrajectoryPoint>, low': real, high': real)
    requires d != 0.0
    requires Reaches(start, end, d, p, lo, hi) && Reaches(start, end, d, q, low, high) && Reaches(start, end, d, r, low', high')
    ensures Reaches(start, end, d, p + q + r, Min(Min(lo, low), low'), Max(Max(hi, high), high'))
  {
    hide Reaches, Min, Max;
    ReachesConcat(start, end, d, p, lo, hi, q, low, high);
    ReachesConcat(start, end, d, p + q, Min(lo, low), Max(hi, high), r, low', high');
  }

  lemma StageBounds(v: real, a: real, n: nat)
    requires a != 0.0 && n > 0
    ensures var q := Stretch(v, a);
            var x := 1.5 * q;
            var y := x + Mul(0.5 * v, Peak(n));
            && LeastOfStages(v, a, n) == Min(Min(Min(0.0, 0.5 * v), Min(0.5 * q, x)), Min(x, y))
            && FurthestOfStages(v, a, n) == Max(Max(Max(0.0, 0.5 * v), Max(0.5 * q, x)), Max(x, y))
  {
    hide Min, Max, Mul, Stretch, Peak;
  }

  function Least(v: real, a: real, d: real): real
    requires a != 0.0
  {
    if Triangular(v, a, d) then 0.0 else LeastOfStages(v, a, StageSteps(v, a))
  }

  function Furthest(v: real, a: real, d: real): real
    requires a != 0.0
  {
    if Triangular(v, a, d) then 0.5 * a else FurthestOfStages(v, a, StageSteps(v, a))
  }

  // Only a positive acceleration covers a positive distance.
  lemma TriangularIsForward(v: real, a: real, d: real)
    requires a != 0.0 && d > 0.0 && Triangular(v, a, d)
    ensures a > 0.0
  {
    hide Mul, Quotient, Stretch, StageDistance;
    StageForms(v, a, 0.0);
    StretchSign(v, a);
  }

  // No plan leaves out its start.
  lemma ReachBounds(v: real, a: real, d: real)
    requires a != 0.0 && d > 0.0
    ensures Least(v, a, d) <= 0.0 <= Furthest(v, a, d)
  {
    if Triangular(v, a, d) { TriangularIsForward(v, a, d); }
    hide Triangular, Stretch, Peak, StageSteps, Mul;
  }

  /** How far a plan goes, for every start, end, speed and acceleration: all its waypoints have gone between the least and the furthest distance, and some have gone just these. */
  lemma PlanReaches(sqrt: real -> real, start: Point, end: Point, velocity: Velocity, accel: Velocity)
    requires accel.linear != 0.0 && Distance(sqrt, start, end) >= NEAR
    ensures var d, v, a := Distance(sqrt, start, end), velocity.linear, accel.linear;
            Reaches(start, end, d, PointToPointPlan(sqrt, start, end, velocity, accel), Least(v, a, d), Furthest(v, a, d))
  {
    var d, v, a := Distance(sqrt, start, end), velocity.linear, accel.linear;
    if Triangular(v, a, d) { TriangularIsForward(v, a, d); }
    hide Mul, Quotient, TriangularPlan, Stages, Reaches, Distance, Triangular, Peak, TriangularSteps, StageSteps, Stretch;
    if Triangular(v, a, d) {
      TriangularReaches(start, end, a, d, sqrt(Quotient(d, a)), TriangularSteps(sqrt, d, a));
    } else {
      StagesReach(start, end, velocity, a, d, StageSteps(v, a));
    }
  }

  // ---------------------------------------------------------------- every waypoint, in numbers of steps

  // A fraction without its division.
  lemma PartIs(i: int, n: nat)
    requires n > 0
    ensures Mul(Part(i, n), n as real) == i as real
  {
  }

  lemma QuotientIs(x: real, d: real)
    requires d != 0.0
    ensures Mul(Quotient(x, d), d) == x
  {
  }

  // Products of a speed or an acceleration with part of the way.
  lemma ScaledPart(a: real, t: real, n: real, i: real)
    requires Mul(t, n) == i
    ensures Mul(a, t) * n == a * i
    ensures Mul(a, 1.0 - t) * n == a * (n - i)
    ensures Mul(t * 2.0, a) * n == 2.0 * i * a
  {
    assert t * n == i;
    assert a * t * n == a * (t * n);
    assert a * (1.0 - t) * n == a * (n - t * n);
    assert t * 2.0 * a * n == 2.0 * (t * n) * a;
  }

  lemma SquaredPart(a: real, t: real, n: real, i: real)
    requires Mul(t, n) == i
    ensures 2.0 * (n * n) * Mul(Mul(0.5 * a, t), t) == a * (i * i)
  {
    assert t * n == i;
    assert 2.0 * (n * n) * (0.5 * a * t * t) == a * ((t * n) * (t * n));
  }

  // The i-th of the n + 1 waypoints of a triangular plan: constant acceleration all the way, though its speed goes down after the middle.
  predicate TrianglePlace(a: real, n: real, i: real, x: real) { 2.0 * (n * n) * x == a * (i * i) }

  predicate TriangleSpeed(a: real, n: nat, i: nat, w: real) {
    w * n as real == if i <= n / 2 then a * i as real else a * (n as real - i as real)
  }

  predicate TriangleTime(half: real, n: real, i: real, at: real) { at * n == 2.0 * i * half }

  ghost predicate OnTriangle(start: Point, end: Point, a: real, d: real, half: real, n: nat, i: nat, p: TrajectoryPoint)
    requires d != 0.0
  {
    && (exists x: real :: Gone(start, end, d, p.position, x) && TrianglePlace(a, n as real, i as real, x))
    && p.velocity.angular == 0.0 && TriangleSpeed(a, n, i, p.velocity.linear) && TriangleTime(half, n as real, i as real, p.at)
  }

  lemma TriangleSpeedIs(a: real, n: nat, i: nat)
    requires n > 0
    ensures TriangleSpeed(a, n, i, if i > n / 2 then Mul(a, 1.0 - Part(i, n)) else Mul(a, Part(i, n)))
  {
    PartIs(i, n);
    ScaledPart(a, Part(i, n), n as real, i as real);
    hide Mul, Part;
  }

  lemma TrianglePlaceIs(a: real, n: nat, i: nat)
    requires n > 0
    ensures TrianglePlace(a, n as real, i as real, Mul(Mul(0.5 * a, Part(i, n)), Part(i, n)))
  {
    PartIs(i, n);
    SquaredPart(a, Part(i, n), n as real, i as real);
  }

  lemma TriangleTimeIs(half: real, n: nat, i: nat)
    requires n > 0
    ensures TriangleTime(half, n as real, i as real, Mul(Part(i, n) * 2.0, half))
  {
    PartIs(i, n);
    ScaledPart(half, Part(i, n), n as real, i as real);
  }

  lemma TriangularPointIs(start: Point, end: Point, a: real, d: real, half: real, n: nat, i: nat)
    requires d != 0.0 && n > 0 && i <= n
    ensures OnTriangle(start, end, a, d, half, n, i, TriangularPoint(start, end, a, d, half, n, i))
  {
    hide Mul, Quotient, Along, Part, TrianglePlace, TriangleSpeed, TriangleTime;
    TrianglePlaceIs(a, n, i);
    TriangleSpeedIs(a, n, i);
    TriangleTimeIs(half, n, i);
    assert Gone(start, end, d, TriangularPoint(start, end, a, d, half, n, i).position, Mul(Mul(0.5 * a, Part(i, n)), Part(i, n)));
  }

  // The i-th of the n + 1 waypoints of a stage: speeding up to the speed, keeping it, and in the last stage going a little further and back.
  predicate StagePlace(stage: int, v: real, a: real, n: real, i: real, x: real) {
    if stage == 0 then 2.0 * (n * n) * x == v * (i * i)
    else if stage == 1 then 2.0 * (a * n) * x == v * v * (n + 2.0 * i)
    else 2.0 * (a * (n * n)) * x == 3.0 * (v * v) * (n * n) + a * v * (i * (n - i))
  }

  predicate StageSpeed(stage: int, velocity: Velocity, a: real, n: real, i: real, w: Velocity) {
    if stage == 1 then w == velocity
    else w.angular == 0.0 && w.linear * n == if stage == 0 then a * i else velocity.linear * (n - i)
  }

  ghost predicate OnStage(start: Point, end: Point, velocity: Velocity, a: real, d: real, n: nat, stage: int, i: nat, p: TrajectoryPoint)
    requires d != 0.0
  {
    && (exists x: real :: Gone(start, end, d, p.position, x) && StagePlace(stage, velocity.linear, a, n as real, i as real, x))
    && StageSpeed(stage, velocity, a, n as real, i as real, p.velocity)
    && p.at == (stage * n + i) as real / 100.0
  }

  lemma StretchIs(v: real, a: real)
    requires a != 0.0
    ensures a * Stretch(v, a) == v * v
  {
    assert Quotient(v, a) * a == v;
    assert a * (v * Quotient(v, a)) == v * (Quotient(v, a) * a);
  }

  lemma SteadyStage(v: real, a: real, q: real, t: real, n: real, i: real)
    requires a * q == v * v && Mul(t, n) == i
    ensures 2.0 * (a * n) * (0.5 * q + Mul(q, t)) == v * v * (n + 2.0 * i)
  {
    assert t * n == i;
    assert 2.0 * (a * n) * (0.5 * q + q * t) == (a * q) * (n + 2.0 * (t * n));
  }

  lemma LastStage(v: real, a: real, q: real, t: real, n: real, i: real)
    requires a * q == v * v && Mul(t, n) == i
    ensures 2.0 * (a * (n * n)) * (1.5 * q + Mul(0.5 * v, Mul(t, 1.0 - t))) == 3.0 * (v * v) * (n * n) + a * v * (i * (n - i))
  {
    assert t * n == i;
    assert 2.0 * (a * (n * n)) * (1.5 * q) == 3.0 * (a * q) * (n * n);
    assert 2.0 * (a * (n * n)) * (0.5 * v * (t * (1.0 - t))) == a * v * ((t * n) * (n - t * n));
  }

  lemma FirstStagePlace(v: real, a: real, t: real, m: real, k: real)
    requires a != 0.0 && Mul(t, m) == k
    ensures 2.0 * (m * m) * StageDistance(0, v, a, t) == v * (k * k)
  {
    hide *;
    StageForms(v, a, t);
    SquaredPart(v, t, m, k);
  }

  lemma SecondStagePlace(v: real, a: real, t: real, m: real, k: real)
    requires a != 0.0 && Mul(t, m) == k
    ensures 2.0 * (a * m) * StageDistance(1, v, a, t) == v * v * (m + 2.0 * k)
  {
    hide *;
    StageForms(v, a, t);
    StretchIs(v, a);
    SteadyStage(v, a, Stretch(v, a), t, m, k);
  }

  lemma ThirdStagePlace(v: real, a: real, t: real, m: real, k: real)
    requires a != 0.0 && Mul(t, m) == k
    ensures 2.0 * (a * (m * m)) * StageDistance(2, v, a, t) == 3.0 * (v * v) * (m * m) + a * v * (k * (m - k))
  {
    hide *;
    StageForms(v, a, t);
    StretchIs(v, a);
    LastStage(v, a, Stretch(v, a), t, m, k);
  }

  lemma StageSpeedIs(stage: int, velocity: Velocity, a: real, n: nat, i: nat)
    requires n > 0
    ensures StageSpeed(stage, velocity, a, n as real, i as real, StageVelocity(stage, velocity, a, Part(i, n)))
  {
    PartIs(i, n);
    ScaledPart(a, Part(i, n), n as real, i as real);
    ScaledPart(velocity.linear, Part(i, n), n as real, i as real);
    hide Mul, Part;
  }

  lemma StagePlaceIs(stage: int, v: real, a: real, n: nat, i: nat)
    requires a != 0.0 && n > 0 && 0 <= stage <= 2
    ensures StagePlace(stage, v, a, n as real, i as real, StageDistance(stage, v, a, Part(i, n)))
  {
    PartIs(i, n);
    hide Mul, Part, StageDistance;
    if stage == 0 { FirstStagePlace(v, a, Part(i, n), n as real, i as real); }
    else if stage == 1 { SecondStagePlace(v, a, Part(i, n), n as real, i as real); }
    else { ThirdStagePlace(v, a, Part(i, n), n as real, i as real); }
  }

  lemma StagePointIs(start: Point, end: Point, velocity: Velocity, a: real, d: real, n: nat, stage: int, i: nat)
    requires a != 0.0 && d != 0.0 && n > 0 && i <= n && 0 <= stage <= 2
    ensures OnStage(start, end, velocity, a, d, n, stage, i, StagePoint(start, end, velocity, a, d, n, stage, i))
  {
    hide Mul, Quotient, Along, Part, StageDistance, StageVelocity, StagePlace, StageSpeed;
    StagePlaceIs(stage, velocity.linear, a, n, i);
    StageSpeedIs(stage, velocity, a, n, i);
    assert Gone(start, end, d, StagePoint(start, end, velocity, a, d, n, stage, i).position, StageDistance(stage, velocity.linear, a, Part(i, n)));
  }

  // The speed is reached before half the way, or not.
  lemma TriangularIff(v: real, a: real, d: real)
    requires a != 0.0 && d > 0.0
    ensures Triangular(v, a, d) <==> a > 0.0 && v * v >= a * d
  {
    StretchIs(v, a);
    hide Mul, Quotient, Stretch, StageDistance;
    StageForms(v, a, 0.0);
    StretchSign(v, a);
    var q := Stretch(v, a);
    if a > 0.0 { OrderTimes(q, d, a); }
  }

  lemma OrderTimes(x: real, y: real, a: real)
    requires a > 0.0
    ensures x >= y <==> a * x >= a * y
  {
    if x < y { assert a * (y - x) > 0.0; } else { assert a * (x - y) >= 0.0; }
  }

  // As many steps as whole hundredths of a second in a time, but not fewer than so many.
  function StepsFor(time: real, least: nat): (n: nat)
    ensures n >= least && (n == least || n as real <= 100.0 * time)
    ensures 100.0 * time < n as real + 1.0
  {
    if Truncate(time / 0.01) < least then least else Truncate(time / 0.01)
  }

  ghost predicate IsTriangle(start: Point, end: Point, a: real, d: real, half: real, n: nat, plan: seq<TrajectoryPoint>)
    requires d != 0.0
  {
    |plan| == n + 1 && forall i: nat :: i <= n ==> OnTriangle(start, end, a, d, half, n, i, plan[i])
  }

  ghost predicate IsStage(start: Point, end: Point, velocity: Velocity, a: real, d: real, n: nat, stage: int, plan: seq<TrajectoryPoint>)
    requires d != 0.0
  {
    |plan| == n + 1 && forall i: nat :: i <= n ==> OnStage(start, end, velocity, a, d, n, stage, i, plan[i])
  }

  lemma TriangleIs(start: Point, end: Point, a: real, d: real, half: real, n: nat)
    requires d != 0.0 && n > 0
    ensures IsTriangle(start, end, a, d, half, n, TriangularPlan(start, end, a, d, half, n))
  {
    hide OnTriangle, TriangularPoint;
    forall i: nat | i <= n ensures OnTriangle(start, end, a, d, half, n, i, TriangularPoint(start, end, a, d, half, n, i)) {
      TriangularPointIs(start, end, a, d, half, n, i);
    }
  }

  lemma StageIs(start: Point, end: Point, velocity: Velocity, a: real, d: real, n: nat, stage: int)
    requires a != 0.0 && d != 0.0 && n > 0 && 0 <= stage <= 2
    ensures IsStage(start, end, velocity, a, d, n, stage, StagePlan(start, end, velocity, a, d, n, stage))
  {
    hide OnStage, StagePoint;
    forall i: nat | i <= n ensures OnStage(start, end, velocity, a, d, n, stage, i, StagePoint(start, end, velocity, a, d, n, stage, i)) {
      StagePointIs(start, end, velocity, a, d, n, stage, i);
    }
  }

  // A plan of three stages, one after the other.
  ghost predicate IsStaged(start: Point, end: Point, velocity: Velocity, a: real, d: real, n: nat, plan: seq<TrajectoryPoint>)
    requires d != 0.0
  {
    && |plan| == 3 * (n + 1)
    && IsStage(start, end, velocity, a, d, n, 0, plan[..n + 1])
    && IsStage(start, end, velocity, a, d, n, 1, plan[n + 1..2 * (n + 1)])
    && IsStage(start, end, velocity, a, d, n, 2, plan[2 * (n + 1)..])
  }

  lemma StagesAre(start: Point, end: Point, velocity: Velocity, a: real, d: real, n: nat)
    requires a != 0.0 && d != 0.0 && n > 0
    ensures IsStaged(start, end, velocity, a, d, n, Stages(start, end, velocity, a, d, n, 3))
  {
    var p, q, r := StagePlan(start, end, velocity, a, d, n, 0), StagePlan(start, end, velocity, a, d, n, 1), StagePlan(start, end, velocity, a, d, n, 2);
    var plan := Stages(start, end, velocity, a, d, n, 3);
    ThreeStages(start, end, velocity, a, d, n);
    StageIs(start, end, velocity, a, d, n, 0);
    StageIs(start, end, velocity, a, d, n, 1);
    StageIs(start, end, velocity, a, d, n, 2);
    hide Stages, IsStage, StagePoint;
    assert plan == p + q + r;
    assert plan[..n + 1] == p && plan[n + 1..2 * (n + 1)] == q && plan[2 * (n + 1)..] == r;
  }

  /**
   What the point-to-point planner plans, waypoint by waypoint, position, speed and time: one
   triangle when the speed is not reached before half the way at full acceleration, three
   stages otherwise, and in each as many steps as hundredths of a second, at least five or ten.
   */
  lemma PlanIs(sqrt: real -> real, start: Point, end: Point, velocity: Velocity, accel: Velocity)
    requires accel.linear != 0.0
    ensures var plan := PointToPointPlan(sqrt, start, end, velocity, accel);
            var d, v, a := Distance(sqrt, start, end), velocity.linear, accel.linear;
            if d < 0.001 then plan == [TrajectoryPoint(end, Velocity(0.0, 0.0), 0.0)]
            else if a > 0.0 && v * v >= a * d then
              IsTriangle(start, end, a, d, sqrt(Quotient(d, a)), StepsFor(sqrt(Quotient(d, a)), 5), plan)
            else IsStaged(start, end, velocity, a, d, StepsFor(Quotient(v, a), 10), plan)
  {
    var d, v, a := Distance(sqrt, start, end), velocity.linear, accel.linear;
    if d >= 0.001 {
      TriangularIff(v, a, d);
      StepsAre(sqrt, v, a, d);
      hide Mul, Quotient, Distance, Triangular, IsTriangle, IsStaged, TriangularPlan, Stages, StepsFor, TriangularSteps, StageSteps;
      if Triangular(v, a, d) {
        TriangleIs(start, end, a, d, sqrt(Quotient(d, a)), StepsFor(sqrt(Quotient(d, a)), 5));
      } else {
        StagesAre(start, end, velocity, a, d, StepsFor(Quotient(v, a), 10));
      }
    }
  }

  lemma StepsAre(sqrt: real -> real, v: real, a: real, d: real)
    requires a != 0.0
    ensures TriangularSteps(sqrt, d, a) == StepsFor(sqrt(Quotient(d, a)), 5) && StageSteps(v, a) == StepsFor(Quotient(v, a), 10)
  {
    hide Quotient, Truncate;
  }

  // ---------------------------------------------------------------- when the plan stays on the way

  lemma StaysIffReach(sqrt: real -> real, start: Point, end: Point, plan: seq<TrajectoryPoint>, lo: real, hi: real)
    requires IsSquareRoot(sqrt) && Distance(sqrt, start, end) >= NEAR
    requires Reaches(start, end, Distance(sqrt, start, end), plan, lo, hi)
    ensures StaysOnSegment(start, end, plan) <==> 0.0 <= lo && hi <= Distance(sqrt, start, end)
  {
    var d := Distance(sqrt, start, end);
    hide Distance, IsSquareRoot, OnSegment, Along, Quotient;
    if 0.0 <= lo && hi <= d {
      forall i | 0 <= i < |plan| ensures OnSegment(start, end, plan[i].position) {
        var x: real :| lo <= x <= hi && Gone(start, end, d, plan[i].position, x);
        OnTheWay(sqrt, start, end, x);
      }
    }
    OnTheWay(sqrt, start, end, lo);
    OnTheWay(sqrt, start, end, hi);
  }

  /** A triangular plan stays between start and end exactly when the distance is at least half the acceleration. */
  lemma TriangularStaysIff(sqrt: real -> real, start: Point, end: Point, a: real, half: real, n: nat)
    requires IsSquareRoot(sqrt) && Distance(sqrt, start, end) >= NEAR && a > 0.0 && n > 0
    ensures StaysOnSegment(start, end, TriangularPlan(start, end, a, Distance(sqrt, start, end), half, n))
       <==> 2.0 * Distance(sqrt, start, end) >= a
  {
    var d := Distance(sqrt, start, end);
    hide Distance, IsSquareRoot, TriangularPlan, StaysOnSegment, Reaches;
    TriangularReaches(start, end, a, d, half, n);
    StaysIffReach(sqrt, start, end, TriangularPlan(start, end, a, d, half, n), 0.0, 0.5 * a);
  }

  /**
   With positive acceleration a three-stage plan stays between start and end exactly when the
   speed is not negative, the distance is at least half the speed, and it is at least three
   times what speeding up covers plus what the middle waypoint of the last stage adds.
   */
  lemma StagesStayIff(sqrt: real -> real, start: Point, end: Point, velocity: Velocity, a: real, n: nat)
    requires IsSquareRoot(sqrt) && Distance(sqrt, start, end) >= NEAR && a > 0.0 && n > 0
    ensures var d, v := Distance(sqrt, start, end), velocity.linear;
            StaysOnSegment(start, end, Stages(start, end, velocity, a, d, n, 3))
            <==> 0.0 <= v <= 2.0 * d && 1.5 * Mul(v, Quotient(v, a)) + Mul(0.5 * v, Peak(n)) <= d
  {
    var d, v := Distance(sqrt, start, end), velocity.linear;
    hide Distance, IsSquareRoot, Stages, StaysOnSegment, Reaches;
    StagesReach(start, end, velocity, a, d, n);
    StaysIffReach(sqrt, start, end, Stages(start, end, velocity, a, d, n, 3), LeastOfStages(v, a, n), FurthestOfStages(v, a, n));
    StretchSign(v, a);
    PeakIsHighest(0, n);
    hide Mul, Quotient, Peak;
    if v >= 0.0 { MulNonNegative(0.5 * v, Peak(n)); }
  }

  // The condition under which a plan with positive acceleration does not leave the way.
  predicate NoOvershoot(v: real, a: real, d: real)
    requires a != 0.0
  {
    if Triangular(v, a, d) then 2.0 * d >= a
    else 0.0 <= v <= 2.0 * d && 1.5 * Mul(v, Quotient(v, a)) + Mul(0.5 * v, Peak(StageSteps(v, a))) <= d
  }

  lemma NoOvershootIff(v: real, a: real, d: real)
    requires a > 0.0
    ensures NoOvershoot(v, a, d) <==> 0.0 <= Least(v, a, d) && Furthest(v, a, d) <= d
  {
    var n := StageSteps(v, a);
    StretchSign(v, a);
    PeakIsHighest(0, n);
    hide Quotient, Peak, StageSteps, Triangular, Mul;
    if v >= 0.0 { MulNonNegative(0.5 * v, Peak(n)); }
  }

  /** For every start, end, speed and acceleration other than zero: all waypoints lie between start and end exactly when the distance is too short to plan, or none has gone backwards or beyond it. */
  lemma PlanStaysIff(sqrt: real -> real, start: Point, end: Point, velocity: Velocity, accel: Velocity)
    requires IsSquareRoot(sqrt) && accel.linear != 0.0
    ensures var d, v, a := Distance(sqrt, start, end), velocity.linear, accel.linear;
            && (StaysOnSegment(start, end, PointToPointPlan(sqrt, start, end, velocity, accel))
                <==> d < NEAR || (0.0 <= Least(v, a, d) && Furthest(v, a, d) <= d))
            && (a > 0.0 ==> (NoOvershoot(v, a, d) <==> 0.0 <= Least(v, a, d) && Furthest(v, a, d) <= d))
  {
    var d, v, a := Distance(sqrt, start, end), velocity.linear, accel.linear;
    if a > 0.0 { NoOvershootIff(v, a, d); }
    if d < NEAR {
      MulUnits(end.x - start.x); MulUnits(end.y - start.y); MulUnits(end.z - start.z);
      assert Along(start, end, 1.0) == end;
      assert OnSegment(start, end, end);
    } else {
      hide StaysOnSegment, Distance, IsSquareRoot, PointToPointPlan, Reaches, Least, Furthest;
      PlanReaches(sqrt, start, end, velocity, accel);
      StaysIffReach(sqrt, start, end, PointToPointPlan(sqrt, start, end, velocity, accel), Least(v, a, d), Furthest(v, a, d));
    }
  }

  // ---------------------------------------------------------------- when the plan stays within limits

  // Where the X coordinate is after a distance x.
  function XAt(start: Point, end: Point, d: real, x: real): real
    requires d != 0.0
  {
    Mix(start.x, end.x, Quotient(x, d))
  }

  lemma QuotientOrder(x: real, y: real, d: real)
    requires d > 0.0 && x <= y
    ensures Quotient(x, d) <= Quotient(y, d)
  {
    assert Mul(Quotient(x, d), d) == x && Mul(Quotient(y, d), d) == y;
    hide Mul, Quotient;
    MulOrderIff(Quotient(x, d), Quotient(y, d), d);
  }

  // What lies between two distances lies between their places.
  lemma XBetween(start: Point, end: Point, d: real, lo: real, x: real, hi: real)
    requires d > 0.0 && lo <= x <= hi
    ensures Min(XAt(start, end, d, lo), XAt(start, end, d, hi)) <= XAt(start, end, d, x) <= Max(XAt(start, end, d, lo), XAt(start, end, d, hi))
  {
    QuotientOrder(lo, x, d);
    QuotientOrder(x, hi, d);
    var s, t, u, w := Quotient(lo, d), Quotient(x, d), Quotient(hi, d), end.x - start.x;
    hide Mul, Quotient;
    var m := if w >= 0.0 then w else -w;
    MulOrder(s, t, m);
    MulOrder(t, u, m);
    MulSwap(s, m); MulSwap(t, m); MulSwap(u, m);
    MulSwap(s, w); MulSwap(t, w); MulSwap(u, w);
    Negated(w, s); Negated(w, t); Negated(w, u);
  }

  /** A plan's X coordinates are within limits exactly when they are where it has gone least and where it has gone furthest. */
  lemma WithinIffReach(start: Point, end: Point, d: real, plan: seq<TrajectoryPoint>, lo: real, hi: real, low: real, high: real)
    requires d > 0.0 && Reaches(start, end, d, plan, lo, hi)
    ensures (forall i :: 0 <= i < |plan| ==> low <= plan[i].position.x <= high)
       <==> low <= XAt(start, end, d, lo) <= high && low <= XAt(start, end, d, hi) <= high
  {
    hide Quotient, Mix;
    forall i | 0 <= i < |plan|
      ensures Min(XAt(start, end, d, lo), XAt(start, end, d, hi)) <= plan[i].position.x <= Max(XAt(start, end, d, lo), XAt(start, end, d, hi))
    {
      var x: real :| lo <= x <= hi && Gone(start, end, d, plan[i].position, x);
      XBetween(start, end, d, lo, x, hi);
    }
  }

  /** A plan that goes anywhere begins where the axis is. */
  lemma PlanStartsAtStart(sqrt: real -> real, start: Point, end: Point, velocity: Velocity, accel: Velocity)
    requires accel.linear != 0.0 && Distance(sqrt, start, end) >= NEAR
    ensures |PointToPointPlan(sqrt, start, end, velocity, accel)| > 0
    ensures PointToPointPlan(sqrt, start, end, velocity, accel)[0].position == start
  {
    var d, v, a := Distance(sqrt, start, end), velocity.linear, accel.linear;
    hide Distance, Along, Triangular;
    StandingStill(start, end, d);
    if Triangular(v, a, d) {
      var n := TriangularSteps(sqrt, d, a);
      PartBounds(0, n);
      NoReach(0.5 * a);
      hide Mul, Quotient, Part, TriangularSteps;
    } else {
      var n := StageSteps(v, a);
      PartBounds(0, n);
      NoReach(0.5 * a);
      ThreeStages(start, end, velocity, a, d, n);
      MulUnits(Quotient(v, a));
      NoStageReach(v, a);
      hide Mul, Quotient, Part, StageSteps, Stages, StageDistance, StageVelocity;
      assert StagePlan(start, end, velocity, a, d, n, 0)[0].position == start;
    }
  }

  lemma StandingStill(start: Point, end: Point, d: real)
    requires d != 0.0
    ensures Along(start, end, Quotient(0.0, d)) == start
  {
    MulUnits(end.x - start.x); MulUnits(end.y - start.y); MulUnits(end.z - start.z);
    assert Quotient(0.0, d) == 0.0;
    hide Mul, Quotient;
  }

  lemma NoReach(h: real)
    ensures Mul(Mul(h, 0.0), 0.0) == 0.0
  {
  }

  lemma NoStageReach(v: real, a: real)
    requires a != 0.0
    ensures StageDistance(0, v, a, 0.0) == 0.0
  {
  }

  /** What a caller can check without knowing the number of steps. */
  lemma EnoughRoom(v: real, a: real, d: real)
    requires a > 0.0 && v >= 0.0
    requires if Triangular(v, a, d) then 2.0 * d >= a else d >= v / 2.0 && d >= 1.5 * Mul(v, Quotient(v, a)) + v / 8.0
    ensures NoOvershoot(v, a, d)
  {
    if !Triangular(v, a, d) {
      var n := StageSteps(v, a);
      PeakIsHighest(0, n);
      hide Mul, Quotient, Peak, StageSteps, Triangular;
      MulOrder(Peak(n), 0.25, 0.5 * v);
      MulSwap(Peak(n), 0.5 * v);
      Quarter(0.5 * v);
    }
  }

  lemma Quarter(x: real)
    ensures Mul(0.25, x) == x / 4.0
  {
  }
}
