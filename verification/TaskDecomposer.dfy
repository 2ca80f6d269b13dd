/**
 From a motion task to the commands of its axes: validation, planning per axis, stamping.
 */
module TaskDecomposers {
  import opened Wrappers
  import opened Motion
  import opened Geometry
  import opened LinearPlanner
  import opened PointToPointPlanner
  import opened CommandIds
  import opened QueueModel
  import opened CommandPipeline
  import opened TaskRoundTrip

  datatype MotionTask = MotionTask(
    id: string, taskType: string, target: Point, velocity: Velocity, axes: seq<string>, timeout: int
  )

  datatype Problem =
    | NoType
    | NoAxes
    | UnknownAxis(axis: string)
    | TooFast(axis: string)
    | OutOfBounds(axis: string)
    | Unsupported(taskType: string)

  const MOVE_TO := "move_to"
  const MOVE_RELATIVE := "move_relative"
  const HOME := "home"
  const STOP := "stop"
  const JOG := "jog"

  // ---------------------------------------------------------------- validation

  function AxisProblem(config: Config, task: MotionTask, axis: string): Option<Problem> {
    if axis !in config then Some(UnknownAxis(axis))
    else if task.velocity.linear > config[axis].maxVelocity then Some(TooFast(axis))
    else if task.taskType == MOVE_TO && (task.target.x < config[axis].minPosition || task.target.x > config[axis].maxPosition)
    then Some(OutOfBounds(axis))
    else None
  }

  // What a task must satisfy to be decomposed at all.
  ghost predicate Acceptable(config: Config, task: MotionTask) {
    && task.taskType != "" && task.axes != []
    && forall i :: 0 <= i < |task.axes| ==>
         && task.axes[i] in config
         && task.velocity.linear <= config[task.axes[i]].maxVelocity
         && (task.taskType == MOVE_TO ==> config[task.axes[i]].minPosition <= task.target.x <= config[task.axes[i]].maxPosition)
  }

  /** Reports the problem of the first axis that has one, and none exactly for an acceptable task. */
  method ValidateTask(config: Config, task: MotionTask) returns (problem: Option<Problem>)
    ensures problem == None <==> Acceptable(config, task)
    ensures problem == Validation(config, task)
  {
    if task.taskType == "" { return Some(NoType); }
    if |task.axes| == 0 { return Some(NoAxes); }
    for i := 0 to |task.axes|
      invariant forall k :: 0 <= k < i ==> AxisProblem(config, task, task.axes[k]) == None
      invariant FirstProblem(config, task, task.axes) == FirstProblem(config, task, task.axes[i..])
    {
      var axis := task.axes[i];
      assert task.axes[i..][0] == axis && task.axes[i..][1..] == task.axes[i + 1..];
      if axis !in config { return Some(UnknownAxis(axis)); }
      var axisConfig := config[axis];
      if task.velocity.linear > axisConfig.maxVelocity { return Some(TooFast(axis)); }
      if task.taskType == MOVE_TO {
        if task.target.x < axisConfig.minPosition || task.target.x > axisConfig.maxPosition { return Some(OutOfBounds(axis)); }
      }
    }
    ValidationIff(config, task, task.axes);
    return None;
  }

  function FirstProblem(config: Config, task: MotionTask, axes: seq<string>): Option<Problem> {
    if axes == [] then None
    else if AxisProblem(config, task, axes[0]).Some? then AxisProblem(config, task, axes[0])
    else FirstProblem(config, task, axes[1..])
  }

  function Validation(config: Config, task: MotionTask): Option<Problem> {
    if task.taskType == "" then Some(NoType)
    else if task.axes == [] then Some(NoAxes)
    else FirstProblem(config, task, task.axes)
  }

  lemma {:induction false} ValidationIff(config: Config, task: MotionTask, axes: seq<string>)
    ensures FirstProblem(config, task, axes) == None <==> forall i :: 0 <= i < |axes| ==> AxisProblem(config, task, axes[i]) == None
    decreases axes
  {
    if axes != [] {
      ValidationIff(config, task, axes[1..]);
      if FirstProblem(config, task, axes) == None {
        forall i | 0 <= i < |axes| ensures AxisProblem(config, task, axes[i]) == None {
          if i > 0 { assert axes[i] == axes[1..][i - 1]; }
        }
      } else if AxisProblem(config, task, axes[0]) == None {
        var i :| 0 <= i < |axes[1..]| && AxisProblem(config, task, axes[1..][i]) != None;
        assert axes[i + 1] == axes[1..][i];
      }
    }
  }

  // What is wrong with an axis, if anything, in the order it is looked for.
  ghost predicate IsProblemOf(config: Config, task: MotionTask, axis: string, problem: Problem) {
    if axis !in config then problem == UnknownAxis(axis)
    else if task.velocity.linear > config[axis].maxVelocity then problem == TooFast(axis)
    else
      && task.taskType == "move_to" && problem == OutOfBounds(axis)
      && (task.target.x < config[axis].minPosition || config[axis].maxPosition < task.target.x)
  }

  ghost predicate Fine(config: Config, task: MotionTask, axis: string) {
    && axis in config && task.velocity.linear <= config[axis].maxVelocity
    && (task.taskType == "move_to" ==> config[axis].minPosition <= task.target.x <= config[axis].maxPosition)
  }

  /** The problem reported is a missing type, or else missing axes, or else that of the first axis that has one. */
  lemma ProblemIsFirst(config: Config, task: MotionTask)
    requires Validation(config, task).Some?
    ensures var problem := Validation(config, task).value;
            if task.taskType == "" then problem == NoType
            else if task.axes == [] then problem == NoAxes
            else exists i :: 0 <= i < |task.axes| && IsProblemOf(config, task, task.axes[i], problem) && forall j :: 0 <= j < i ==> Fine(config, task, task.axes[j])
  {
    if task.taskType != "" && task.axes != [] { var i := FirstIs(config, task, task.axes); }
  }

  lemma {:induction false} FirstIs(config: Config, task: MotionTask, axes: seq<string>) returns (i: nat)
    requires FirstProblem(config, task, axes).Some?
    ensures i < |axes| && IsProblemOf(config, task, axes[i], FirstProblem(config, task, axes).value)
    ensures forall j :: 0 <= j < i ==> Fine(config, task, axes[j])
    decreases axes
  {
    i := 0;
    if AxisProblem(config, task, axes[0]).None? {
      var k := FirstIs(config, task, axes[1..]);
      i := k + 1;
      assert forall j :: 1 <= j < i ==> axes[j] == axes[1..][j - 1];
    }
  }

  // ---------------------------------------------------------------- planning per axis

  function Waypoint(task: MotionTask, cfg: AxisConfig, p: TrajectoryPoint): MotionCommand {
    MotionCommand("", cfg.deviceId, task.taskType, p.position, p.velocity, Velocity(cfg.maxAcceleration, 0.0), NoData, 0)
  }

  function Waypoints(task: MotionTask, cfg: AxisConfig, plan: seq<TrajectoryPoint>): seq<MotionCommand> {
    seq(|plan|, i requires 0 <= i < |plan| => Waypoint(task, cfg, plan[i]))
  }

  // Where the planners divide, the divisor is not zero.
  predicate Plannable(task: MotionTask, cfg: AxisConfig) {
    (task.taskType == MOVE_TO ==> cfg.maxAcceleration != 0.0) && (task.taskType == MOVE_RELATIVE ==> task.velocity.linear != 0.0)
  }

  predicate PlannableOn(config: Config, task: MotionTask, axes: seq<string>) {
    forall i :: 0 <= i < |axes| && axes[i] in config ==> Plannable(task, config[axes[i]])
  }

  predicate AllPlannable(config: Config, task: MotionTask) {
    PlannableOn(config, task, task.axes)
  }

  function AxisCommands(sqrt: real -> real, task: MotionTask, cfg: AxisConfig): seq<MotionCommand>
    requires Plannable(task, cfg)
  {
    if task.taskType == MOVE_TO then
      Waypoints(task, cfg, PointToPointPlan(sqrt, ORIGIN, task.target, task.velocity, Velocity(cfg.maxAcceleration, 0.0)))
    else if task.taskType == MOVE_RELATIVE then
      Waypoints(task, cfg, LinearPlan(sqrt, ORIGIN, task.target, task.velocity))
    else if task.taskType == HOME then
      [MotionCommand("", cfg.deviceId, HOME, Point(cfg.homePosition, 0.0, 0.0), Velocity(cfg.maxVelocity * 0.5, 0.0),
                     Velocity(cfg.maxAcceleration * 0.5, 0.0), NoData, 0)]
    else if task.taskType == STOP then
      [MotionCommand("", cfg.deviceId, STOP, ORIGIN, STILL, STILL, NoData, 0)]
    else
      [MotionCommand("", cfg.deviceId, JOG, task.target, task.velocity, Velocity(cfg.maxAcceleration, 0.0), NoData, 0)]
  }

  // The commands of the axes, one after the other; an axis without configuration has none.
  function PerAxis(sqrt: real -> real, config: Config, task: MotionTask, axes: seq<string>): seq<MotionCommand>
    requires PlannableOn(config, task, axes)
  {
    if axes == [] then []
    else if axes[|axes| - 1] in config then
      PerAxis(sqrt, config, task, axes[..|axes| - 1]) + AxisCommands(sqrt, task, config[axes[|axes| - 1]])
    else PerAxis(sqrt, config, task, axes[..|axes| - 1])
  }

  predicate Supported(taskType: string) {
    taskType == MOVE_TO || taskType == MOVE_RELATIVE || taskType == HOME || taskType == STOP || taskType == JOG
  }

  function Stamp(commands: seq<MotionCommand>, task: MotionTask): seq<MotionCommand> {
    seq(|commands|, i requires 0 <= i < |commands| => commands[i].(id := CommandId(task.id, i), timeout := task.timeout))
  }

  function Decomposition(sqrt: real -> real, config: Config, task: MotionTask): Result<seq<MotionCommand>, Problem>
    requires AllPlannable(config, task)
  {
    if Validation(config, task).Some? then Err(Validation(config, task).value)
    else if !Supported(task.taskType) then Err(Unsupported(task.taskType))
    else Ok(Stamp(PerAxis(sqrt, config, task, task.axes), task))
  }

  lemma OneMoreAxis(sqrt: real -> real, config: Config, task: MotionTask, k: nat)
    requires AllPlannable(config, task) && k < |task.axes|
    ensures PerAxis(sqrt, config, task, task.axes[..k + 1])
         == if task.axes[k] in config
            then PerAxis(sqrt, config, task, task.axes[..k]) + AxisCommands(sqrt, task, config[task.axes[k]])
            else PerAxis(sqrt, config, task, task.axes[..k])
  {
    assert task.axes[..k + 1][..k] == task.axes[..k];
  }

  // Turns a trajectory into commands, waypoint by waypoint.
  method AppendWaypoints(commands: seq<MotionCommand>, task: MotionTask, cfg: AxisConfig, trajectory: seq<TrajectoryPoint>)
    returns (extended: seq<MotionCommand>)
    ensures extended == commands + Waypoints(task, cfg, trajectory)
  {
    extended := commands;
    for j := 0 to |trajectory|
      invariant extended == commands + Waypoints(task, cfg, trajectory)[..j]
    {
      var point := trajectory[j];
      extended := extended + [MotionCommand("", cfg.deviceId, task.taskType, point.position, point.velocity,
                                            Velocity(cfg.maxAcceleration, 0.0), NoData, 0)];
    }
  }

  method DecomposeMoveTo(sqrt: real -> real, config: Config, task: MotionTask) returns (commands: seq<MotionCommand>)
    requires AllPlannable(config, task) && task.taskType == MOVE_TO
    ensures commands == PerAxis(sqrt, config, task, task.axes)
  {
    commands := [];
    for k := 0 to |task.axes|
      invariant commands == PerAxis(sqrt, config, task, task.axes[..k])
    {
      OneMoreAxis(sqrt, config, task, k);
      if task.axes[k] in config {
        var cfg := config[task.axes[k]];
        var trajectory := PlanPointToPoint(sqrt, ORIGIN, task.target, task.velocity, Velocity(cfg.maxAcceleration, 0.0));
        commands := AppendWaypoints(commands, task, cfg, trajectory);
      }
    }
    assert task.axes[..|task.axes|] == task.axes;
  }

  method DecomposeMoveRelative(sqrt: real -> real, config: Config, task: MotionTask) returns (commands: seq<MotionCommand>)
    requires AllPlannable(config, task) && task.taskType == MOVE_RELATIVE
    ensures commands == PerAxis(sqrt, config, task, task.axes)
  {
    commands := [];
    for k := 0 to |task.axes|
      invariant commands == PerAxis(sqrt, config, task, task.axes[..k])
    {
      OneMoreAxis(sqrt, config, task, k);
      if task.axes[k] in config {
        var cfg := config[task.axes[k]];
        assert Plannable(task, cfg);
        var trajectory := PlanLinear(sqrt, ORIGIN, task.target, task.velocity);
        commands := AppendWaypoints(commands, task, cfg, trajectory);
      }
    }
    assert task.axes[..|task.axes|] == task.axes;
  }

  // One command home for each configured axis, at half its speed.
  method DecomposeHome(sqrt: real -> real, config: Config, task: MotionTask) returns (commands: seq<MotionCommand>)
    requires AllPlannable(config, task) && task.taskType == HOME
    ensures commands == PerAxis(sqrt, config, task, task.axes)
  {
    commands := [];
    for k := 0 to |task.axes|
      invariant commands == PerAxis(sqrt, config, task, task.axes[..k])
    {
      OneMoreAxis(sqrt, config, task, k);
      hide PerAxis, PointToPointPlan, LinearPlan;
      if task.axes[k] in config {
        var cfg := config[task.axes[k]];
        commands := commands + [MotionCommand("", cfg.deviceId, HOME, Point(cfg.homePosition, 0.0, 0.0), Velocity(cfg.maxVelocity * 0.5, 0.0),
                                              Velocity(cfg.maxAcceleration * 0.5, 0.0), NoData, 0)];
      }
    }
    assert task.axes[..|task.axes|] == task.axes;
  }

  // One command to stop for each configured axis.
  method DecomposeStop(sqrt: real -> real, config: Config, task: MotionTask) returns (commands: seq<MotionCommand>)
    requires AllPlannable(config, task) && task.taskType == STOP
    ensures commands == PerAxis(sqrt, config, task, task.axes)
  {
    commands := [];
    for k := 0 to |task.axes|
      invariant commands == PerAxis(sqrt, config, task, task.axes[..k])
    {
      OneMoreAxis(sqrt, config, task, k);
      hide PerAxis, PointToPointPlan, LinearPlan;
      if task.axes[k] in config {
        var cfg := config[task.axes[k]];
        commands := commands + [MotionCommand("", cfg.deviceId, STOP, ORIGIN, STILL, STILL, NoData, 0)];
      }
    }
    assert task.axes[..|task.axes|] == task.axes;
  }

  // One command to jog for each configured axis.
  method DecomposeJog(sqrt: real -> real, config: Config, task: MotionTask) returns (commands: seq<MotionCommand>)
    requires AllPlannable(config, task) && task.taskType == JOG
    ensures commands == PerAxis(sqrt, config, task, task.axes)
  {
    commands := [];
    for k := 0 to |task.axes|
      invariant commands == PerAxis(sqrt, config, task, task.axes[..k])
    {
      OneMoreAxis(sqrt, config, task, k);
      hide PerAxis, PointToPointPlan, LinearPlan;
      if task.axes[k] in config {
        var cfg := config[task.axes[k]];
        commands := commands + [MotionCommand("", cfg.deviceId, JOG, task.target, task.velocity, Velocity(cfg.maxAcceleration, 0.0), NoData, 0)];
      }
    }
    assert task.axes[..|task.axes|] == task.axes;
  }

  /** Validates, plans by task type, and stamps every command with its number in the task. */
  method Decompose(sqrt: real -> real, config: Config, task: MotionTask) returns (result: Result<seq<MotionCommand>, Problem>)
    requires AllPlannable(config, task)
    ensures result == Decomposition(sqrt, config, task)
  {
    var problem := ValidateTask(config, task);
    if problem.Some? { return Err(problem.value); }
    var commands: seq<MotionCommand>;
    if task.taskType == MOVE_TO { commands := DecomposeMoveTo(sqrt, config, task); }
    else if task.taskType == MOVE_RELATIVE { commands := DecomposeMoveRelative(sqrt, config, task); }
    else if task.taskType == HOME { commands := DecomposeHome(sqrt, config, task); }
    else if task.taskType == STOP { commands := DecomposeStop(sqrt, config, task); }
    else if task.taskType == JOG { commands := DecomposeJog(sqrt, config, task); }
    else { return Err(Unsupported(task.taskType)); }
    ghost var planned := commands;
    for i := 0 to |commands|
      invariant |commands| == |planned|
      invariant forall k :: 0 <= k < i ==> commands[k] == planned[k].(id := CommandId(task.id, k), timeout := task.timeout)
      invariant forall k :: i <= k < |commands| ==> commands[k] == planned[k]
    {
      commands := commands[i := commands[i].(id := CommandId(task.id, i), timeout := task.timeout)];
    }
    assert commands == Stamp(planned, task);
    return Ok(commands);
  }

  // ---------------------------------------------------------------- what the commands promise

  // Every waypoint of the task on an axis has its X between the axis's limits.
  ghost predicate WithinLimits(cfg: AxisConfig, c: MotionCommand) {
    cfg.minPosition <= c.position.x <= cfg.maxPosition
  }

  // The place in the list of the axis that a command was planned for.
  function Producer(sqrt: real -> real, config: Config, task: MotionTask, axes: seq<string>, i: nat): (k: nat)
    requires PlannableOn(config, task, axes) && i < |PerAxis(sqrt, config, task, axes)|
    ensures k < |axes| && axes[k] in config
  {
    var last := |axes| - 1;
    if i < |PerAxis(sqrt, config, task, axes[..last])| then Producer(sqrt, config, task, axes[..last], i) else last
  }

  // A command is one of those its axis alone would get.
  lemma {:induction false} ProducedByAxis(sqrt: real -> real, config: Config, task: MotionTask, axes: seq<string>, i: nat) returns (m: nat)
    requires PlannableOn(config, task, axes) && i < |PerAxis(sqrt, config, task, axes)|
    ensures var cfg := config[axes[Producer(sqrt, config, task, axes, i)]];
            m < |AxisCommands(sqrt, task, cfg)| && PerAxis(sqrt, config, task, axes)[i] == AxisCommands(sqrt, task, cfg)[m]
    decreases axes
  {
    hide AxisCommands;
    var last := |axes| - 1;
    var before := PerAxis(sqrt, config, task, axes[..last]);
    if i < |before| {
      m := ProducedByAxis(sqrt, config, task, axes[..last], i);
    } else {
      m := i - |before|;
    }
  }

  // And each of those is a command of the whole.
  lemma {:induction false} AxisProduces(sqrt: real -> real, config: Config, task: MotionTask, axes: seq<string>, k: nat, m: nat) returns (i: nat)
    requires PlannableOn(config, task, axes) && k < |axes| && axes[k] in config && m < |AxisCommands(sqrt, task, config[axes[k]])|
    ensures i < |PerAxis(sqrt, config, task, axes)| && Producer(sqrt, config, task, axes, i) == k
    ensures PerAxis(sqrt, config, task, axes)[i] == AxisCommands(sqrt, task, config[axes[k]])[m]
    decreases axes
  {
    hide AxisCommands;
    var last := |axes| - 1;
    if k < last {
      i := AxisProduces(sqrt, config, task, axes[..last], k, m);
    } else {
      i := |PerAxis(sqrt, config, task, axes[..last])| + m;
    }
  }

  // The configuration of the axis that a command of the decomposition was planned for.
  function AxisOf(sqrt: real -> real, config: Config, task: MotionTask, i: nat): AxisConfig
    requires AllPlannable(config, task) && Decomposition(sqrt, config, task).Ok? && i < |Decomposition(sqrt, config, task).value|
  {
    config[task.axes[Producer(sqrt, config, task, task.axes, i)]]
  }

  // What a single command of an axis does, by the type of the task.
  ghost predicate CarriesOut(task: MotionTask, cfg: AxisConfig, c: MotionCommand) {
    && c.deviceId == cfg.deviceId && c.commandType == task.taskType && c.data == NoData
    && (task.taskType == "move_to" || task.taskType == "move_relative" || task.taskType == "jog" ==>
          c.acceleration == Velocity(cfg.maxAcceleration, 0.0))
    && (task.taskType == "home" ==>
          && c.position == Point(cfg.homePosition, 0.0, 0.0)
          && c.velocity == Velocity(cfg.maxVelocity / 2.0, 0.0) && c.acceleration == Velocity(cfg.maxAcceleration / 2.0, 0.0))
    && (task.taskType == "stop" ==>
          c.position == Point(0.0, 0.0, 0.0) && c.velocity == Velocity(0.0, 0.0) && c.acceleration == Velocity(0.0, 0.0))
    && (task.taskType == "jog" ==> c.position == task.target && c.velocity == task.velocity)
  }

  lemma AxisCommandsCarryOut(sqrt: real -> real, task: MotionTask, cfg: AxisConfig, m: nat)
    requires Plannable(task, cfg) && Supported(task.taskType) && m < |AxisCommands(sqrt, task, cfg)|
    ensures CarriesOut(task, cfg, AxisCommands(sqrt, task, cfg)[m])
    ensures task.taskType == "home" || task.taskType == "stop" || task.taskType == "jog" ==> |AxisCommands(sqrt, task, cfg)| == 1
  {
    hide PointToPointPlan, LinearPlan;
  }

  /** Every command of a decomposition does for the axis it was made for what the type of the task says: same device, same type, full acceleration on the way, home at half speeds, stop at once, jog to the target. */
  lemma CommandsCarryOut(sqrt: real -> real, config: Config, task: MotionTask, i: nat)
    requires AllPlannable(config, task) && Decomposition(sqrt, config, task).Ok? && i < |Decomposition(sqrt, config, task).value|
    ensures CarriesOut(task, AxisOf(sqrt, config, task, i), Decomposition(sqrt, config, task).value[i])
  {
    var m := ProducedByAxis(sqrt, config, task, task.axes, i);
    var k := Producer(sqrt, config, task, task.axes, i);
    var planned := PerAxis(sqrt, config, task, task.axes);
    assert Decomposition(sqrt, config, task) == Ok(Stamp(planned, task));
    hide AxisCommands, PerAxis, Producer;
    AxisCommandsCarryOut(sqrt, task, config[task.axes[k]], m);
  }

  /** A home, stop or jog task has one command for each of its axes, in their order. */
  lemma OnePerAxis(sqrt: real -> real, config: Config, task: MotionTask)
    requires AllPlannable(config, task) && Decomposition(sqrt, config, task).Ok? && task.taskType in {"home", "stop", "jog"}
    ensures |Decomposition(sqrt, config, task).value| == |task.axes|
    ensures forall i :: 0 <= i < |task.axes| ==>
              task.axes[i] in config && CarriesOut(task, config[task.axes[i]], Decomposition(sqrt, config, task).value[i])
  {
    ValidationIff(config, task, task.axes);
    forall i | 0 <= i < |task.axes| ensures task.axes[i] in config { assert AxisProblem(config, task, task.axes[i]) == None; }
    SingleCommands(sqrt, config, task, task.axes);
    assert Decomposition(sqrt, config, task) == Ok(Stamp(PerAxis(sqrt, config, task, task.axes), task));
    hide PerAxis, AxisCommands;
  }

  lemma {:induction false} SingleCommands(sqrt: real -> real, config: Config, task: MotionTask, axes: seq<string>)
    requires PlannableOn(config, task, axes) && task.taskType in {"home", "stop", "jog"} && forall i :: 0 <= i < |axes| ==> axes[i] in config
    ensures |PerAxis(sqrt, config, task, axes)| == |axes|
    ensures forall i :: 0 <= i < |axes| ==> CarriesOut(task, config[axes[i]], PerAxis(sqrt, config, task, axes)[i])
    decreases axes
  {
    if axes != [] {
      var last := |axes| - 1;
      SingleCommands(sqrt, config, task, axes[..last]);
      assert |AxisCommands(sqrt, task, config[axes[last]])| == 1 by { hide PerAxis; }
      hide AxisCommands;
      AxisCommandsCarryOut(sqrt, task, config[axes[last]], 0);
    }
  }

  lemma {:induction false} SegmentOf(sqrt: real -> real, config: Config, task: MotionTask, axes: seq<string>, k: nat)
    requires PlannableOn(config, task, axes) && k < |axes| && axes[k] in config
    ensures var from, n := |PerAxis(sqrt, config, task, axes[..k])|, |AxisCommands(sqrt, task, config[axes[k]])|;
            && from + n <= |PerAxis(sqrt, config, task, axes)|
            && PerAxis(sqrt, config, task, axes)[from..from + n] == AxisCommands(sqrt, task, config[axes[k]])
            && forall i :: from <= i < from + n ==> Producer(sqrt, config, task, axes, i) == k
    decreases axes
  {
    hide AxisCommands;
    var last := |axes| - 1;
    var before := PerAxis(sqrt, config, task, axes[..last]);
    if k < last {
      assert axes[..last][..k] == axes[..k];
      SegmentOf(sqrt, config, task, axes[..last], k);
    }
  }

  // Commands that follow a plan, point by point.
  ghost predicate Follows(commands: seq<MotionCommand>, plan: seq<TrajectoryPoint>) {
    && |commands| == |plan|
    && forall m :: 0 <= m < |plan| ==> commands[m].position == plan[m].position && commands[m].velocity == plan[m].velocity
  }

  // These commands are those of one of the task's axes.
  ghost predicate MadeFor(sqrt: real -> real, config: Config, task: MotionTask, k: nat, from: nat, n: nat)
    requires AllPlannable(config, task)
  {
    && from + n <= |PerAxis(sqrt, config, task, task.axes)|
    && forall i :: from <= i < from + n ==> Producer(sqrt, config, task, task.axes, i) == k
  }

  function PlanOf(sqrt: real -> real, task: MotionTask, cfg: AxisConfig): seq<TrajectoryPoint>
    requires Plannable(task, cfg) && (task.taskType == MOVE_TO || task.taskType == MOVE_RELATIVE)
  {
    if task.taskType == MOVE_TO then PointToPointPlan(sqrt, Point(0.0, 0.0, 0.0), task.target, task.velocity, Velocity(cfg.maxAcceleration, 0.0))
    else LinearPlan(sqrt, Point(0.0, 0.0, 0.0), task.target, task.velocity)
  }

  lemma AxisFollows(sqrt: real -> real, task: MotionTask, cfg: AxisConfig)
    requires Plannable(task, cfg) && (task.taskType == MOVE_TO || task.taskType == MOVE_RELATIVE)
    ensures Follows(AxisCommands(sqrt, task, cfg), PlanOf(sqrt, task, cfg))
  {
    hide PointToPointPlan, LinearPlan;
  }

  lemma StampedFollows(planned: seq<MotionCommand>, task: MotionTask, from: nat, n: nat, plan: seq<TrajectoryPoint>)
    requires from + n <= |planned| && Follows(planned[from..from + n], plan)
    ensures Follows(Stamp(planned, task)[from..from + n], plan)
  {
    var part, stamped := planned[from..from + n], Stamp(planned, task)[from..from + n];
    forall m | 0 <= m < n ensures stamped[m].position == part[m].position && stamped[m].velocity == part[m].velocity {}
  }

  /** The commands of a configured axis of a move are the waypoints of its plan from the origin to the target, one by one, and stand together. */
  lemma MoveFollows(sqrt: real -> real, config: Config, task: MotionTask, k: nat) returns (from: nat, n: nat)
    requires AllPlannable(config, task) && Decomposition(sqrt, config, task).Ok? && k < |task.axes| && task.axes[k] in config
    requires task.taskType == MOVE_TO || task.taskType == MOVE_RELATIVE
    ensures from == |PerAxis(sqrt, config, task, task.axes[..k])| && MadeFor(sqrt, config, task, k, from, n)
    ensures from + n <= |Decomposition(sqrt, config, task).value|
    ensures Follows(Decomposition(sqrt, config, task).value[from..from + n], PlanOf(sqrt, task, config[task.axes[k]]))
  {
    var cfg := config[task.axes[k]];
    assert Decomposition(sqrt, config, task) == Ok(Stamp(PerAxis(sqrt, config, task, task.axes), task));
    SegmentOf(sqrt, config, task, task.axes, k);
    from, n := |PerAxis(sqrt, config, task, task.axes[..k])|, |AxisCommands(sqrt, task, cfg)|;
    AxisFollows(sqrt, task, cfg);
    hide Decomposition, PerAxis, Producer, PlanOf, AxisCommands, Follows;
    StampedFollows(PerAxis(sqrt, config, task, task.axes), task, from, n, PlanOf(sqrt, task, cfg));
  }

  // These commands lead from one point to another in equal steps, at one speed.
  ghost predicate Leads(cs: seq<MotionCommand>, start: Point, end: Point, velocity: Velocity, step: real) {
    && cs != [] && cs[0].position == start && cs[|cs| - 1].position == end
    && (forall m :: 0 <= m < |cs| ==> cs[m].velocity == velocity && OnSegment(start, end, cs[m].position))
    && (forall m :: 0 <= m < |cs| - 1 ==> Distance2(cs[m].position, cs[m + 1].position) == Square(step))
  }

  /**
   A relative move at a positive speed over a real distance: the commands of every configured
   axis lead from the origin to the target in at least ten equal steps no longer than a
   hundredth of the speed, at the task's speed throughout.
   */
  lemma MoveRelativeArrives(sqrt: real -> real, config: Config, task: MotionTask, k: nat) returns (from: nat, n: nat, step: real)
    requires IsSquareRoot(sqrt) && AllPlannable(config, task) && Decomposition(sqrt, config, task).Ok?
    requires task.taskType == "move_relative" && task.velocity.linear > 0.0 && Distance(sqrt, Point(0.0, 0.0, 0.0), task.target) >= 0.001
    requires k < |task.axes| && task.axes[k] in config
    ensures from == |PerAxis(sqrt, config, task, task.axes[..k])| && n > 10 && 0.0 <= step <= task.velocity.linear / 100.0
    ensures MadeFor(sqrt, config, task, k, from, n) && from + n <= |Decomposition(sqrt, config, task).value|
    ensures Leads(Decomposition(sqrt, config, task).value[from..from + n], Point(0.0, 0.0, 0.0), task.target, task.velocity, step)
  {
    var origin := Point(0.0, 0.0, 0.0);
    var plan := LinearPlan(sqrt, origin, task.target, task.velocity);
    assert PlanOf(sqrt, task, config[task.axes[k]]) == plan;
    from, n := MoveFollows(sqrt, config, task, k);
    hide Decomposition, PerAxis, MadeFor, PlanOf, Distance, Distance2, Square, OnSegment, IsSquareRoot, LinearPlan;
    var gap: real;
    step, gap := LinearPlanIsSteady(sqrt, origin, task.target, task.velocity);
  }

  ghost predicate ContainsZero(cfg: AxisConfig) {
    cfg.minPosition <= 0.0 <= cfg.maxPosition
  }

  lemma ValidTarget(sqrt: real -> real, config: Config, task: MotionTask, k: nat)
    requires AllPlannable(config, task) && Decomposition(sqrt, config, task).Ok? && task.taskType == MOVE_TO && k < |task.axes|
    ensures task.axes[k] in config && config[task.axes[k]].minPosition <= task.target.x <= config[task.axes[k]].maxPosition
  {
    ValidationIff(config, task, task.axes);
    assert AxisProblem(config, task, task.axes[k]) == None;
  }

  // Every command of the decomposition keeps X within the limits of the axis it was planned for.
  ghost predicate KeepsLimits(sqrt: real -> real, config: Config, task: MotionTask)
    requires AllPlannable(config, task) && Decomposition(sqrt, config, task).Ok?
  {
    forall i :: 0 <= i < |Decomposition(sqrt, config, task).value| ==>
      WithinLimits(AxisOf(sqrt, config, task, i), Decomposition(sqrt, config, task).value[i])
  }

  // The axis has X within its limits where the plan has gone least, and where it has gone furthest.
  predicate HasReach(d: real, task: MotionTask, cfg: AxisConfig)
    requires d != 0.0 && cfg.maxAcceleration != 0.0
  {
    var v, a := task.velocity.linear, cfg.maxAcceleration;
    && cfg.minPosition <= XAt(ORIGIN, task.target, d, Least(v, a, d)) <= cfg.maxPosition
    && cfg.minPosition <= XAt(ORIGIN, task.target, d, Furthest(v, a, d)) <= cfg.maxPosition
  }

  lemma AxisKeepsIff(sqrt: real -> real, task: MotionTask, cfg: AxisConfig)
    requires task.taskType == MOVE_TO && Plannable(task, cfg) && cfg.minPosition <= task.target.x <= cfg.maxPosition
    ensures (forall m :: 0 <= m < |AxisCommands(sqrt, task, cfg)| ==> WithinLimits(cfg, AxisCommands(sqrt, task, cfg)[m]))
       <==> Distance(sqrt, ORIGIN, task.target) < NEAR || HasReach(Distance(sqrt, ORIGIN, task.target), task, cfg)
  {
    var d, v, a := Distance(sqrt, ORIGIN, task.target), task.velocity.linear, cfg.maxAcceleration;
    var plan := PointToPointPlan(sqrt, ORIGIN, task.target, task.velocity, Velocity(a, 0.0));
    var commands := AxisCommands(sqrt, task, cfg);
    assert |commands| == |plan| && forall m :: 0 <= m < |plan| ==> commands[m].position == plan[m].position;
    if d < NEAR {
      assert forall m :: 0 <= m < |plan| ==> plan[m].position == task.target;
    } else {
      hide PointToPointPlan, Distance, AxisCommands, Reaches, XAt, Least, Furthest;
      PlanReaches(sqrt, ORIGIN, task.target, task.velocity, Velocity(a, 0.0));
      WithinIffReach(ORIGIN, task.target, d, plan, Least(v, a, d), Furthest(v, a, d), cfg.minPosition, cfg.maxPosition);
    }
  }

  // The decomposition keeps the limits when the commands of each axis do.
  lemma KeepsLimitsPerAxis(sqrt: real -> real, config: Config, task: MotionTask)
    requires AllPlannable(config, task) && Decomposition(sqrt, config, task).Ok?
    ensures KeepsLimits(sqrt, config, task)
       <==> forall k, m :: 0 <= k < |task.axes| && task.axes[k] in config && 0 <= m < |AxisCommands(sqrt, task, config[task.axes[k]])|
                           ==> WithinLimits(config[task.axes[k]], AxisCommands(sqrt, task, config[task.axes[k]])[m])
  {
    var planned := PerAxis(sqrt, config, task, task.axes);
    assert Decomposition(sqrt, config, task) == Ok(Stamp(planned, task));
    hide AxisCommands, PerAxis, Producer, Decomposition;
    if KeepsLimits(sqrt, config, task) {
      forall k, m | 0 <= k < |task.axes| && task.axes[k] in config && 0 <= m < |AxisCommands(sqrt, task, config[task.axes[k]])|
        ensures WithinLimits(config[task.axes[k]], AxisCommands(sqrt, task, config[task.axes[k]])[m])
      {
        var i := AxisProduces(sqrt, config, task, task.axes, k, m);
        assert Stamp(planned, task)[i].position == planned[i].position;
      }
    }
    forall i | 0 <= i < |planned|
      ensures exists k, m :: 0 <= k < |task.axes| && task.axes[k] in config && 0 <= m < |AxisCommands(sqrt, task, config[task.axes[k]])|
                             && AxisOf(sqrt, config, task, i) == config[task.axes[k]]
                             && Stamp(planned, task)[i].position == AxisCommands(sqrt, task, config[task.axes[k]])[m].position
    {
      var m := ProducedByAxis(sqrt, config, task, task.axes, i);
      var k := Producer(sqrt, config, task, task.axes, i);
      assert Stamp(planned, task)[i].position == planned[i].position == AxisCommands(sqrt, task, config[task.axes[k]])[m].position;
    }
  }

  /**
   A validated move keeps each command within the limits of the axis it was planned for exactly
   when it is too short to plan, or every axis has X within its limits both where its plan has
   gone least and where it has gone furthest, overshooting included.
   */
  lemma MoveToKeepsLimitsIff(sqrt: real -> real, config: Config, task: MotionTask)
    requires AllPlannable(config, task) && task.taskType == MOVE_TO && Decomposition(sqrt, config, task).Ok?
    ensures var d := Distance(sqrt, ORIGIN, task.target);
            && (KeepsLimits(sqrt, config, task)
                <==> d < NEAR || forall k :: 0 <= k < |task.axes| && task.axes[k] in config ==> HasReach(d, task, config[task.axes[k]]))
  {
    KeepsLimitsPerAxis(sqrt, config, task);
    hide Decomposition, AxisCommands, Distance, KeepsLimits, HasReach, WithinLimits;
    forall k | 0 <= k < |task.axes| && task.axes[k] in config
      ensures (forall m :: 0 <= m < |AxisCommands(sqrt, task, config[task.axes[k]])|
                           ==> WithinLimits(config[task.axes[k]], AxisCommands(sqrt, task, config[task.axes[k]])[m]))
         <==> Distance(sqrt, ORIGIN, task.target) < NEAR || HasReach(Distance(sqrt, ORIGIN, task.target), task, config[task.axes[k]])
    {
      ValidTarget(sqrt, config, task, k);
      AxisKeepsIff(sqrt, task, config[task.axes[k]]);
    }
  }

  // The task leaves the axis enough room not to overshoot.
  predicate Roomy(d: real, task: MotionTask, cfg: AxisConfig) {
    cfg.maxAcceleration > 0.0 && NoOvershoot(task.velocity.linear, cfg.maxAcceleration, d)
  }

  // With room the plan goes from the origin towards the target and not beyond.
  lemma RoomyReach(d: real, task: MotionTask, cfg: AxisConfig)
    requires d >= NEAR && Roomy(d, task, cfg) && cfg.minPosition <= task.target.x <= cfg.maxPosition
    ensures HasReach(d, task, cfg) <==> ContainsZero(cfg)
  {
    var v, a := task.velocity.linear, cfg.maxAcceleration;
    NoOvershootIff(v, a, d);
    ReachBounds(v, a, d);
    StandingStill(ORIGIN, task.target, d);
    hide Least, Furthest, NoOvershoot, Quotient, Mix;
    QuotientUnit(Furthest(v, a, d), d);
    CoordinateBetween(0.0, task.target.x, Quotient(Furthest(v, a, d), d));
  }

  /** With room on every axis it is enough, and needed, that every range contains zero, where each plan starts. */
  lemma RoomyKeepsLimitsIff(sqrt: real -> real, config: Config, task: MotionTask)
    requires AllPlannable(config, task) && task.taskType == MOVE_TO && Decomposition(sqrt, config, task).Ok?
    requires var d := Distance(sqrt, ORIGIN, task.target);
             d < NEAR || forall k :: 0 <= k < |task.axes| && task.axes[k] in config ==> Roomy(d, task, config[task.axes[k]])
    ensures KeepsLimits(sqrt, config, task)
       <==> Distance(sqrt, ORIGIN, task.target) < NEAR
            || forall k :: 0 <= k < |task.axes| && task.axes[k] in config ==> ContainsZero(config[task.axes[k]])
  {
    MoveToKeepsLimitsIff(sqrt, config, task);
    var d := Distance(sqrt, ORIGIN, task.target);
    hide Decomposition, Distance, KeepsLimits, HasReach, Roomy;
    if d >= NEAR {
      forall k | 0 <= k < |task.axes| && task.axes[k] in config
        ensures HasReach(d, task, config[task.axes[k]]) <==> ContainsZero(config[task.axes[k]])
      {
        ValidTarget(sqrt, config, task, k);
        RoomyReach(d, task, config[task.axes[k]]);
      }
    }
  }

  /** Decomposition succeeds exactly for an acceptable task of a supported type, and then stamps every command with its number and the task's timeout. */
  lemma DecomposedIsStamped(sqrt: real -> real, config: Config, task: MotionTask)
    requires AllPlannable(config, task)
    ensures Decomposition(sqrt, config, task).Ok? <==>
              && Acceptable(config, task)
              && task.taskType in {"move_to", "move_relative", "home", "stop", "jog"}
    ensures Decomposition(sqrt, config, task).Err? ==>
              if Acceptable(config, task) then Decomposition(sqrt, config, task).error == Unsupported(task.taskType)
              else Validation(config, task) == Some(Decomposition(sqrt, config, task).error)
    ensures Decomposition(sqrt, config, task).Ok? ==>
              var cs := Decomposition(sqrt, config, task).value;
              Stamped(cs, task.id) && forall i :: 0 <= i < |cs| ==> cs[i].timeout == task.timeout
  {
    hide PerAxis;
    ValidationIff(config, task, task.axes);
  }

  /**
   Decompose a task, push all its commands in order with room for each, and look the task
   up: the decomposition comes back whole and alone exactly when the task's ID has no '-' (or
   nothing was planned) and no other task's command is in the queue under this ID; so exactly
   when no push of such a command was accepted, if none of these is taken out again.
   */
  lemma DecomposedComesBackIff(sqrt: real -> real, config: Config, task: MotionTask, q: Queue, acts: seq<Action>)
    requires AllPlannable(config, task) && Decomposition(sqrt, config, task).Ok?
    requires Unused(q) && IsRun(Start(q), acts) && SparesAll(Start(q), acts, task.id)
    requires OwnPushes(acts, task.id) == Decomposition(sqrt, config, task).value
    ensures var cs, end := Decomposition(sqrt, config, task).value, After(Start(q), acts).q;
            var back := ComesBack(GetByTaskId(end, task.id), cs);
            && (back <==> (cs == [] || '-' !in task.id) && !Intruded(end, task.id))
            && (IntrudersStay(Start(q), acts, task.id)
                ==> (back <==> (cs == [] || '-' !in task.id) && !Intrudes(Start(q), acts, task.id)))
  {
    DecomposedIsStamped(sqrt, config, task);
    hide *;
    ComesBackIff(q, acts, task.id, Decomposition(sqrt, config, task).value);
    ComesBackUnlessIntruded(q, acts, task.id, Decomposition(sqrt, config, task).value);
  }
}
