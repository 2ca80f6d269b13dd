/**
 Trees of task nodes and their compilation to a flat list of commands. Parameters are loosely
 typed: reading one by an unchecked type assertion can stop the program, which is an outcome
 of its own here.
 */
module TaskNodeModel {
  import opened Wrappers
  import opened Motion
  import opened Geometry

  datatype Value =
    | Nil
    | Str(text: string)
    | DevID(text: string)      // a string under its own type name
    | Num(number: real)
    | Dur(nanos: int)
    | Int64(n: int)
    | Int(n: int)
    | Bool(b: bool)
    | PointValue(p: Point)
    | Obj(fields: map<string, Value>)
    | List(items: seq<Value>)

  type Params = map<string, Value>

  datatype Node = Node(id: string, nodeType: string, params: Params, children: seq<Node>)

  datatype Cause = UnsupportedType(nodeType: string) | NoDevice(deviceId: string)

  // The trail names the nodes on the way down to the one that failed.
  datatype Outcome = Commands(commands: seq<MotionCommand>) | Error(trail: seq<string>, cause: Cause) | Panic

  datatype Env = Env(axes: Config, devices: set<string>)

  const DEFAULT_DEVICE := "device-1"

  predicate IsMotion(t: string) { t == "move_to" || t == "move_relative" || t == "home" || t == "stop" || t == "jog" }
  predicate IsGroup(t: string) { t == "sequence" || t == "parallel" }
  predicate NeedsDevice(t: string) { t == "io" || t == "motor_control" || t == "motor_status" }
  predicate IsSupportedLeaf(t: string) { IsMotion(t) || NeedsDevice(t) || t == "delay" || t == "condition" }

  function Param(params: Params, key: string): Value {
    if key in params then params[key] else Nil
  }

  // ---------------------------------------------------------------- type assertions

  // A missing value reads as the zero value; a value of another type stops the program.
  predicate TextOrNil(v: Value) { v.Str? || v.Nil? }
  predicate NumberOrNil(v: Value) { v.Num? || v.Nil? }

  function Text(v: Value): string {
    if v.Str? then v.text else ""
  }

  function Number(v: Value): real {
    if v.Num? then v.number else 0.0
  }

  // The one lookup that checks: anything but the two string types means the default device.
  function DeviceOf(params: Params): string {
    var v := Param(params, "device_id");
    if v.Str? || v.DevID? then v.text else DEFAULT_DEVICE
  }

  predicate PointTyped(v: Value) {
    v.Obj? ==> NumberOrNil(Param(v.fields, "x")) && NumberOrNil(Param(v.fields, "y")) && NumberOrNil(Param(v.fields, "z"))
  }

  function PointOf(v: Value): Point {
    if v.Obj? then Point(Number(Param(v.fields, "x")), Number(Param(v.fields, "y")), Number(Param(v.fields, "z"))) else ORIGIN
  }

  predicate VelocityTyped(v: Value) {
    v.Obj? ==> NumberOrNil(Param(v.fields, "linear")) && NumberOrNil(Param(v.fields, "angular"))
  }

  function VelocityOf(v: Value): Velocity {
    if v.Obj? then Velocity(Number(Param(v.fields, "linear")), Number(Param(v.fields, "angular"))) else STILL
  }

  predicate AxesTyped(v: Value) {
    v.List? ==> forall i :: 0 <= i < |v.items| ==> TextOrNil(v.items[i])
  }

  function AxisNames(items: seq<Value>): seq<string> {
    if items == [] then []
    else if items[|items| - 1].Nil? then AxisNames(items[..|items| - 1])
    else AxisNames(items[..|items| - 1]) + [Text(items[|items| - 1])]
  }

  function AxesOf(v: Value): seq<string> {
    if v.List? then AxisNames(v.items) else []
  }

  // Products of durations wrap around at 64 bits.
  function Wrap64(x: int): (r: int)
    ensures -0x8000_0000_0000_0000 <= r < 0x8000_0000_0000_0000
  {
    (x + 0x8000_0000_0000_0000) % 0x1_0000_0000_0000_0000 - 0x8000_0000_0000_0000
  }

  function Seconds(n: int): int {
    Wrap64(n * SECOND)
  }

  function TimeoutOf(v: Value): int {
    match v
    case Dur(nanos) => nanos
    case Num(number) => Seconds(Truncate(number))
    case Int64(n) => Seconds(n)
    case _ => 5 * SECOND
  }

  // ---------------------------------------------------------------- leaves

  // The parameters of a leaf have the types its assertions ask for.
  predicate WellTyped(n: Node) {
    var p := n.params;
    if IsMotion(n.nodeType) then
      PointTyped(Param(p, "target")) && VelocityTyped(Param(p, "velocity")) && AxesTyped(Param(p, "axes"))
    else if n.nodeType == "io" then
      TextOrNil(Param(p, "channel")) && TextOrNil(Param(p, "action"))
    else if n.nodeType == "motor_control" then
      && TextOrNil(Param(p, "motor_id")) && TextOrNil(Param(p, "action"))
      && (Text(Param(p, "action")) == "set_speed" ==> NumberOrNil(Param(p, "speed")))
      && (Text(Param(p, "action")) == "set_position" ==> PointTyped(Param(p, "position")))
    else if n.nodeType == "motor_status" then TextOrNil(Param(p, "motor_id"))
    else if n.nodeType == "delay" then Param(p, "duration").Dur?
    else if n.nodeType == "condition" then TextOrNil(Param(p, "condition"))
    else true
  }

  function AxisCommand(n: Node, cfg: AxisConfig): MotionCommand {
    var target, velocity := PointOf(Param(n.params, "target")), VelocityOf(Param(n.params, "velocity"));
    match n.nodeType
    case "home" => MotionCommand("", cfg.deviceId, "home", Point(cfg.homePosition, 0.0, 0.0),
                                 Velocity(cfg.maxVelocity * 0.5, 0.0), Velocity(cfg.maxAcceleration * 0.5, 0.0), NoData, 0)
    case "stop" => MotionCommand("", cfg.deviceId, "stop", ORIGIN, STILL, STILL, NoData, 0)
    case t => MotionCommand("", cfg.deviceId, t, target, velocity, Velocity(cfg.maxAcceleration, 0.0), NoData, 0)
  }

  // One command for each configured axis, in the order they are named.
  function AxisCommands(axes: Config, n: Node, names: seq<string>): seq<MotionCommand> {
    if names == [] then []
    else
      var last := names[|names| - 1];
      var before := AxisCommands(axes, n, names[..|names| - 1]);
      if last in axes then before + [AxisCommand(n, axes[last])] else before
  }

  function Plain(id: string, device: string, commandType: string, position: Point, data: Payload, timeout: int): MotionCommand {
    MotionCommand(id, device, commandType, position, STILL, STILL, data, timeout)
  }

  function IoPayload(p: Params): Payload {
    var channel, action := Text(Param(p, "channel")), Text(Param(p, "action"));
    if action == "set" then IoSet(channel, if Param(p, "value").Num? then Some(Param(p, "value").number) else None)
    else if action == "read" then IoRead(channel)
    else if action == "toggle" then IoToggle(channel)
    else NoData
  }

  function MotorPayload(p: Params): Payload {
    var motor, action := Text(Param(p, "motor_id")), Text(Param(p, "action"));
    if action == "start" then MotorStart(motor)
    else if action == "stop" then MotorStop(motor)
    else if action == "set_speed" then MotorSpeed(motor, Number(Param(p, "speed")))
    else if action == "set_position" && Param(p, "position").Obj? then MotorPosition(motor, PointOf(Param(p, "position")))
    else NoData
  }

  function MotorTarget(p: Params): Point {
    if Text(Param(p, "action")) == "set_position" then PointOf(Param(p, "position")) else ORIGIN
  }

  // The command of a leaf that is neither a motion nor a group.
  function SingleCommand(n: Node): MotionCommand {
    var p := n.params;
    match n.nodeType
    case "io" => Plain(n.id + "-io", DeviceOf(p), "io", ORIGIN, IoPayload(p), 5 * SECOND)
    case "motor_control" => Plain(n.id + "-motor", DeviceOf(p), "motor_control", MotorTarget(p), MotorPayload(p), 10 * SECOND)
    case "motor_status" => Plain(n.id + "-status", DeviceOf(p), "motor_status", ORIGIN, MotorStatus(Text(Param(p, "motor_id"))), 3 * SECOND)
    case "delay" =>
      var d := if Param(p, "duration").Dur? then Param(p, "duration").nanos else 0;
      Plain(n.id + "-delay", "system", "delay", ORIGIN, Delay(d), d)
    case _ => Plain(n.id + "-condition", DeviceOf(p), "condition", ORIGIN, Condition(Text(Param(p, "condition"))), TimeoutOf(Param(p, "timeout")))
  }

  // The assertions made before the device is looked up come first; those an action asks for come after it.
  predicate TypedUpToDevice(n: Node) {
    if n.nodeType == "motor_control" then TextOrNil(Param(n.params, "motor_id")) && TextOrNil(Param(n.params, "action"))
    else WellTyped(n)
  }

  function CompileLeaf(env: Env, n: Node): Outcome {
    if !IsSupportedLeaf(n.nodeType) then Error([], UnsupportedType(n.nodeType))
    else if !TypedUpToDevice(n) then Panic
    else if NeedsDevice(n.nodeType) && DeviceOf(n.params) !in env.devices then Error([], NoDevice(DeviceOf(n.params)))
    else if !WellTyped(n) then Panic
    else if IsMotion(n.nodeType) then Commands(AxisCommands(env.axes, n, AxesOf(Param(n.params, "axes"))))
    else Commands([SingleCommand(n)])
  }

  // ---------------------------------------------------------------- trees

  function Compile(env: Env, n: Node): Outcome
    decreases n
  {
    if IsGroup(n.nodeType) then CompileAll(env, n.children) else CompileLeaf(env, n)
  }

  // Child after child, until one fails.
  function CompileAll(env: Env, nodes: seq<Node>): Outcome
    decreases nodes
  {
    if nodes == [] then Commands([])
    else Then(CompileAll(env, nodes[..|nodes| - 1]), Within(nodes[|nodes| - 1].id, Compile(env, nodes[|nodes| - 1])))
  }

  function Then(a: Outcome, b: Outcome): Outcome {
    if !a.Commands? then a else if b.Commands? then Commands(a.commands + b.commands) else b
  }

  function Within(id: string, o: Outcome): Outcome {
    if o.Error? then Error([id] + o.trail, o.cause) else o
  }

  /** A group compiles its first child first: where that does not work the group does not either, and otherwise its commands come before those of the rest. */
  lemma {:induction false} FirstChildFirst(env: Env, n: Node)
    requires n.nodeType == "sequence" || n.nodeType == "parallel"
    ensures Compile(env, n) ==
              if n.children == [] then Commands([])
              else
                var first, rest := Compile(env, n.children[0]), Compile(env, n.(children := n.children[1..]));
                match first
                case Panic => Panic
                case Error(trail, cause) => Error([n.children[0].id] + trail, cause)
                case Commands(cs) => if rest.Commands? then Commands(cs + rest.commands) else rest
  {
    if n.children != [] {
      HeadFirst(env, n.children);
      assert Compile(env, n.(children := n.children[1..])) == CompileAll(env, n.children[1..]);
    }
  }

  lemma {:induction false} HeadFirst(env: Env, nodes: seq<Node>)
    requires nodes != []
    ensures CompileAll(env, nodes) == Then(Within(nodes[0].id, Compile(env, nodes[0])), CompileAll(env, nodes[1..]))
    decreases |nodes|
  {
    var last := |nodes| - 1;
    hide Compile, Within;
    if last == 0 {
      assert nodes[..0] == [] && nodes[1..] == [];
      ThenEmpty(Within(nodes[0].id, Compile(env, nodes[0])));
    } else {
      HeadFirst(env, nodes[..last]);
      assert nodes[..last][1..] == nodes[1..][..last - 1];
      ThenAssociates(Within(nodes[0].id, Compile(env, nodes[0])), CompileAll(env, nodes[1..][..last - 1]), Within(nodes[last].id, Compile(env, nodes[last])));
    }
  }

  lemma ThenEmpty(o: Outcome)
    ensures Then(Commands([]), o) == o && Then(o, Commands([])) == o
  {
    if o.Commands? { assert [] + o.commands == o.commands == o.commands + []; }
  }

  // ---------------------------------------------------------------- compilation is a homomorphism

  // The nodes that groups bottom out in, from left to right.
  function Leaves(n: Node): seq<Node>
    decreases n
  {
    if IsGroup(n.nodeType) then LeavesOf(n.children) else [n]
  }

  function LeavesOf(nodes: seq<Node>): seq<Node>
    decreases nodes
  {
    if nodes == [] then [] else LeavesOf(nodes[..|nodes| - 1]) + Leaves(nodes[|nodes| - 1])
  }

  // The same leaves without any tree around them.
  function CompileFlat(env: Env, leaves: seq<Node>): Outcome {
    if leaves == [] then Commands([])
    else Then(CompileFlat(env, leaves[..|leaves| - 1]), CompileLeaf(env, leaves[|leaves| - 1]))
  }

  // An outcome without the trail that says where it failed.
  function Bare(o: Outcome): Outcome {
    if o.Error? then Error([], o.cause) else o
  }

  lemma ThenAssociates(a: Outcome, b: Outcome, c: Outcome)
    ensures Then(Then(a, b), c) == Then(a, Then(b, c))
  {
    if a.Commands? && b.Commands? && c.Commands? {
      assert (a.commands + b.commands) + c.commands == a.commands + (b.commands + c.commands);
    }
  }

  lemma {:induction false} FlatAppend(env: Env, a: seq<Node>, b: seq<Node>)
    ensures CompileFlat(env, a + b) == Then(CompileFlat(env, a), CompileFlat(env, b))
    decreases b
  {
    hide CompileLeaf;
    if b == [] {
      assert a + b == a;
      if CompileFlat(env, a).Commands? { assert CompileFlat(env, a).commands + [] == CompileFlat(env, a).commands; }
    } else {
      var last := |b| - 1;
      assert (a + b)[..|a + b| - 1] == a + b[..last];
      FlatAppend(env, a, b[..last]);
      ThenAssociates(CompileFlat(env, a), CompileFlat(env, b[..last]), CompileLeaf(env, b[last]));
    }
  }

  /** Compiling a tree is compiling its leaves from left to right: same commands, same cause of failure, same panic. */
  lemma {:induction false} CompileIsFlat(env: Env, n: Node)
    ensures Bare(Compile(env, n)) == Bare(CompileFlat(env, Leaves(n)))
    decreases n
  {
    hide CompileLeaf;
    if IsGroup(n.nodeType) {
      CompileAllIsFlat(env, n.children);
    } else {
      assert Leaves(n)[..0] == [];
    }
  }

  lemma {:induction false} CompileAllIsFlat(env: Env, nodes: seq<Node>)
    ensures Bare(CompileAll(env, nodes)) == Bare(CompileFlat(env, LeavesOf(nodes)))
    decreases nodes
  {
    hide CompileLeaf;
    if nodes != [] {
      var last := |nodes| - 1;
      CompileAllIsFlat(env, nodes[..last]);
      CompileIsFlat(env, nodes[last]);
      FlatAppend(env, LeavesOf(nodes[..last]), Leaves(nodes[last]));
    }
  }

  /** However sequence and parallel nodes are nested, only their leaves matter. */
  lemma NestingDoesNotMatter(env: Env, a: Node, b: Node)
    requires Leaves(a) == Leaves(b)
    ensures Bare(Compile(env, a)) == Bare(Compile(env, b))
  {
    CompileIsFlat(env, a);
    CompileIsFlat(env, b);
  }

  // ---------------------------------------------------------------- when compilation succeeds, fails or panics

  predicate Compiles(env: Env, leaf: Node) {
    IsSupportedLeaf(leaf.nodeType) && (NeedsDevice(leaf.nodeType) ==> DeviceOf(leaf.params) in env.devices)
  }

  predicate Works(env: Env, leaf: Node) {
    Compiles(env, leaf) && WellTyped(leaf)
  }

  // One of the leaf's assertions stops the program: one made before the device is looked up, or any when the device is there.
  predicate Trips(env: Env, leaf: Node) {
    IsSupportedLeaf(leaf.nodeType) && (!TypedUpToDevice(leaf) || (Compiles(env, leaf) && !WellTyped(leaf)))
  }

  predicate FailsFor(env: Env, leaf: Node, cause: Cause) {
    match cause
    case UnsupportedType(t) => leaf.nodeType == t && !IsSupportedLeaf(t)
    case NoDevice(device) => NeedsDevice(leaf.nodeType) && TypedUpToDevice(leaf) && DeviceOf(leaf.params) == device && device !in env.devices
  }

  function LeafCommands(env: Env, leaf: Node): seq<MotionCommand> {
    if IsMotion(leaf.nodeType) then AxisCommands(env.axes, leaf, AxesOf(Param(leaf.params, "axes"))) else [SingleCommand(leaf)]
  }

  function AllLeafCommands(env: Env, leaves: seq<Node>): seq<MotionCommand> {
    if leaves == [] then [] else AllLeafCommands(env, leaves[..|leaves| - 1]) + LeafCommands(env, leaves[|leaves| - 1])
  }

  lemma LeafOutcome(env: Env, leaf: Node)
    ensures CompileLeaf(env, leaf).Commands? <==> Works(env, leaf)
    ensures CompileLeaf(env, leaf).Commands? ==> CompileLeaf(env, leaf).commands == LeafCommands(env, leaf)
    ensures CompileLeaf(env, leaf) == Panic <==> Trips(env, leaf)
    ensures forall cause :: CompileLeaf(env, leaf) == Error([], cause) <==> FailsFor(env, leaf, cause)
    ensures CompileLeaf(env, leaf).Error? ==> CompileLeaf(env, leaf).trail == []
  {
    hide AxisCommands, SingleCommand, WellTyped, DeviceOf;
    assert WellTyped(leaf) ==> TypedUpToDevice(leaf) by { TypedAlsoBefore(leaf); }
  }

  lemma TypedAlsoBefore(leaf: Node)
    ensures WellTyped(leaf) ==> TypedUpToDevice(leaf)
  {
  }

  predicate FailedFor(o: Outcome, cause: Cause) { o.Error? && o.cause == cause }

  // All leaves before it work.
  ghost predicate IsReached(env: Env, leaves: seq<Node>, i: nat) {
    i < |leaves| && forall j :: 0 <= j < i ==> Works(env, leaves[j])
  }

  lemma {:induction false} AllWork(env: Env, leaves: seq<Node>)
    requires forall i :: 0 <= i < |leaves| ==> Works(env, leaves[i])
    ensures CompileFlat(env, leaves) == Commands(AllLeafCommands(env, leaves))
    decreases leaves
  {
    if leaves != [] {
      var last := |leaves| - 1;
      LeafOutcome(env, leaves[last]);
      hide CompileLeaf, Works, LeafCommands;
      assert forall i :: 0 <= i < last ==> leaves[..last][i] == leaves[i];
      AllWork(env, leaves[..last]);
    }
  }

  // The first leaf that does not work decides.
  lemma {:induction false} FirstDecides(env: Env, leaves: seq<Node>, i: nat)
    requires IsReached(env, leaves, i) && !Works(env, leaves[i])
    ensures CompileFlat(env, leaves) == CompileLeaf(env, leaves[i])
    decreases leaves
  {
    hide CompileLeaf, Works, LeafCommands, AllLeafCommands, Within;
    var last := |leaves| - 1;
    LeafOutcome(env, leaves[i]);
    WorkBefore(env, leaves, i, leaves[..last]);
    if i < last { FirstDecides(env, leaves[..last], i); } else { AllWork(env, leaves[..last]); }
    hide IsReached;
  }

  lemma WorkBefore(env: Env, leaves: seq<Node>, i: nat, before: seq<Node>)
    requires IsReached(env, leaves, i) && before == leaves[..|leaves| - 1]
    ensures i < |before| ==> IsReached(env, before, i) && before[i] == leaves[i]
    ensures i == |before| ==> forall j :: 0 <= j < |before| ==> Works(env, before[j])
  {
    hide Works;
  }

  lemma FirstNotWorking(env: Env, leaves: seq<Node>) returns (i: nat)
    requires exists k :: 0 <= k < |leaves| && !Works(env, leaves[k])
    ensures IsReached(env, leaves, i) && !Works(env, leaves[i])
  {
    hide Works;
    i := 0;
    while Works(env, leaves[i])
      invariant IsReached(env, leaves, i)
      decreases |leaves| - i
    {
      i := i + 1;
    }
  }

  /**
   For every tree, well typed or not: compilation succeeds exactly when every leaf reached
   through groups has a supported type, its device where it needs one, and well-typed
   parameters; the commands are then those of the leaves, from left to right. It panics
   exactly when the first leaf that does not work trips an assertion, and fails for a cause
   exactly when the first leaf that does not work fails for it.
   */
  lemma CompileOutcome(env: Env, n: Node)
    ensures var o, leaves := Compile(env, n), Leaves(n);
            && (o.Commands? <==> forall i :: 0 <= i < |leaves| ==> Works(env, leaves[i]))
            && (o.Commands? ==> o.commands == AllLeafCommands(env, leaves))
            && (o == Panic <==> exists i: nat :: IsReached(env, leaves, i) && Trips(env, leaves[i]))
            && (forall cause :: FailedFor(o, cause) <==> exists i: nat :: IsReached(env, leaves, i) && FailsFor(env, leaves[i], cause))
  {
    hide *;
    CompileIsFlat(env, n);
    FlatOutcome(env, Leaves(n));
    BareAlike(Compile(env, n), CompileFlat(env, Leaves(n)));
  }

  lemma BareAlike(a: Outcome, b: Outcome)
    requires Bare(a) == Bare(b)
    ensures (a.Commands? <==> b.Commands?) && (a.Commands? ==> a.commands == b.commands)
    ensures (a == Panic <==> b == Panic) && forall cause :: FailedFor(a, cause) <==> FailedFor(b, cause)
  {
  }

  lemma NoneDoesBoth(env: Env, leaf: Node)
    ensures Trips(env, leaf) ==> !Works(env, leaf)
    ensures forall cause :: FailsFor(env, leaf, cause) ==> !Works(env, leaf)
  {
    LeafOutcome(env, leaf);
    hide Works, Trips, FailsFor, CompileLeaf;
    forall cause | FailsFor(env, leaf, cause) ensures !Works(env, leaf) {
      assert CompileLeaf(env, leaf) == Error([], cause);
    }
  }

  lemma FlatOutcome(env: Env, leaves: seq<Node>)
    ensures var o := CompileFlat(env, leaves);
            && (o.Commands? <==> forall i :: 0 <= i < |leaves| ==> Works(env, leaves[i]))
            && (o.Commands? ==> o.commands == AllLeafCommands(env, leaves))
            && (o == Panic <==> exists i: nat :: IsReached(env, leaves, i) && Trips(env, leaves[i]))
            && (forall cause :: FailedFor(o, cause) <==> exists i: nat :: IsReached(env, leaves, i) && FailsFor(env, leaves[i], cause))
  {
    forall i: nat | i < |leaves| ensures Trips(env, leaves[i]) ==> !Works(env, leaves[i]) { NoneDoesBoth(env, leaves[i]); }
    forall i: nat, cause | i < |leaves| && FailsFor(env, leaves[i], cause) ensures !Works(env, leaves[i]) { NoneDoesBoth(env, leaves[i]); }
    hide Works, Trips, FailsFor, CompileLeaf, CompileFlat;
    if forall i :: 0 <= i < |leaves| ==> Works(env, leaves[i]) {
      AllWork(env, leaves);
    } else {
      var i := FirstNotWorking(env, leaves);
      FirstDecides(env, leaves, i);
      LeafOutcome(env, leaves[i]);
      forall j: nat | IsReached(env, leaves, j) && !Works(env, leaves[j]) ensures j == i {}
      hide IsReached;
    }
  }

  // ---------------------------------------------------------------- where it failed

  ghost predicate Leads(n: Node, trail: seq<string>, leaf: Node)
    decreases n
  {
    if trail == [] then n == leaf
    else exists i :: 0 <= i < |n.children| && n.children[i].id == trail[0] && Leads(n.children[i], trail[1..], leaf)
  }

  /** The trail of a failure leads from the root to a leaf with that very cause. */
  lemma {:induction false} TrailLeadsToCause(env: Env, n: Node) returns (leaf: Node)
    requires Compile(env, n).Error?
    ensures Leads(n, Compile(env, n).trail, leaf) && !IsGroup(leaf.nodeType)
    ensures CompileLeaf(env, leaf) == Error([], Compile(env, n).cause)
    decreases n
  {
    if IsGroup(n.nodeType) {
      var i := FirstFailure(env, n.children);
      leaf := TrailLeadsToCause(env, n.children[i]);
      assert Compile(env, n).trail[1..] == Compile(env, n.children[i]).trail;
    } else {
      leaf := n;
    }
  }

  lemma {:induction false} FirstFailure(env: Env, nodes: seq<Node>) returns (i: nat)
    requires CompileAll(env, nodes).Error?
    ensures i < |nodes| && Compile(env, nodes[i]).Error?
    ensures CompileAll(env, nodes) == Within(nodes[i].id, Compile(env, nodes[i]))
    decreases nodes
  {
    var last := |nodes| - 1;
    if CompileAll(env, nodes[..last]).Error? {
      i := FirstFailure(env, nodes[..last]);
    } else {
      i := last;
    }
  }
}
