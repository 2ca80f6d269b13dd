/**
 Task nodes as the program keeps them: objects that collect their children in place. Building
 and decomposing them is proved to do what the functions on trees do.
 */
module TaskNodeObjects {
  import opened Wrappers
  import opened Motion
  import opened Geometry
  import opened CommandIds
  import opened TaskNodeModel
  import opened TaskNodeBuilder

  class BaseTaskNode {
    const id: string
    const nodeType: string
    const parameters: Params
    var children: seq<BaseTaskNode>
    ghost var tree: Node
    ghost var Repr: set<BaseTaskNode>

    // The tree is what hangs below this node; no node hangs below itself.
    ghost predicate Valid()
      reads this, Repr
      decreases Repr
    {
      && this in Repr
      && tree.id == id && tree.nodeType == nodeType && tree.params == parameters && |tree.children| == |children|
      && forall i :: 0 <= i < |children| ==>
           && children[i] in Repr && children[i].Repr <= Repr && this !in children[i].Repr
           && children[i].Valid() && children[i].tree == tree.children[i]
    }

    constructor (id: string, nodeType: string, parameters: Params)
      ensures Valid() && Repr == {this} && tree == Node(id, nodeType, parameters, [])
    {
      this.id, this.nodeType, this.parameters, children := id, nodeType, parameters, [];
      tree, Repr := Node(id, nodeType, parameters, []), {this};
    }

    method AddChild(node: BaseTaskNode)
      requires Valid() && node.Valid() && this !in node.Repr
      modifies this
      ensures Valid() && children == old(children) + [node]
      ensures tree == old(tree).(children := old(tree).children + [node.tree]) && Repr == old(Repr) + node.Repr
    {
      children := children + [node];
      tree := tree.(children := tree.children + [node.tree]);
      Repr := Repr + node.Repr;
    }
  }

  // ---------------------------------------------------------------- constructors of the node kinds

  method NewIOTaskNode(id: string, command: IoCommand) returns (n: BaseTaskNode)
    ensures n.Valid() && fresh(n.Repr) && n.tree == IoNode(id, command)
    ensures n.tree.id == id && n.tree.nodeType == "io" && n.tree.children == []
    ensures var p := n.tree.params;
            && p.Keys == {"device_id", "channel", "action", "value", "threshold", "timeout"}
            && p["device_id"] == DevID(command.deviceId) && p["channel"] == Str(command.channel) && p["action"] == Str(command.action)
            && p["value"] == Num(command.value) && p["threshold"] == Num(command.threshold) && p["timeout"] == Dur(command.timeout)
  {
    n := new BaseTaskNode(id, "io", map["device_id" := DevID(command.deviceId), "channel" := Str(command.channel),
                                        "action" := Str(command.action), "value" := Num(command.value),
                                        "threshold" := Num(command.threshold), "timeout" := Dur(command.timeout)]);
  }

  method NewMotorTaskNode(id: string, command: MotorCommand) returns (n: BaseTaskNode)
    ensures n.Valid() && fresh(n.Repr) && n.tree == MotorNode(id, command)
    ensures n.tree.id == id && n.tree.nodeType == "motor_control" && n.tree.children == []
    ensures var p := n.tree.params;
            && p.Keys == {"device_id", "motor_id", "action", "speed", "position", "acceleration", "torque", "direction", "enable"}
            && p["device_id"] == DevID(command.deviceId) && p["motor_id"] == Str(command.motorId) && p["action"] == Str(command.action)
            && p["speed"] == Num(command.speed) && p["position"] == PointValue(command.position) && p["acceleration"] == Num(command.acceleration)
            && p["torque"] == Num(command.torque) && p["direction"] == Int(command.direction) && p["enable"] == Bool(command.enable)
  {
    n := new BaseTaskNode(id, "motor_control", map["device_id" := DevID(command.deviceId), "motor_id" := Str(command.motorId),
                                                   "action" := Str(command.action), "speed" := Num(command.speed),
                                                   "position" := PointValue(command.position),
                                                   "acceleration" := Num(command.acceleration), "torque" := Num(command.torque),
                                                   "direction" := Int(command.direction), "enable" := Bool(command.enable)]);
  }

  method NewDelayTaskNode(id: string, command: DelayCommand) returns (n: BaseTaskNode)
    ensures n.Valid() && fresh(n.Repr) && n.tree == DelayNode(id, command)
    ensures n.tree.id == id && n.tree.nodeType == "delay" && n.tree.children == []
    ensures var p := n.tree.params;
            p.Keys == {"duration", "unit"} && p["duration"] == Dur(command.duration) && p["unit"] == Str(command.unit)
  {
    n := new BaseTaskNode(id, "delay", map["duration" := Dur(command.duration), "unit" := Str(command.unit)]);
  }

  // The trees below some nodes.
  ghost function TreesOf(nodes: seq<BaseTaskNode>): seq<Node>
    reads nodes
  {
    seq(|nodes|, i requires 0 <= i < |nodes| reads nodes => nodes[i].tree)
  }

  // Everything that hangs below some nodes.
  ghost function Below(nodes: seq<BaseTaskNode>): set<BaseTaskNode>
    reads nodes
  {
    set i, o | 0 <= i < |nodes| && o in nodes[i].Repr :: o
  }

  ghost predicate AllValid(nodes: seq<BaseTaskNode>)
    reads nodes, Below(nodes)
  {
    forall i :: 0 <= i < |nodes| ==> nodes[i].Valid()
  }

  /** Adds nodes as children one by one. */
  method AddChildren(n: BaseTaskNode, nodes: seq<BaseTaskNode>, ghost trees: seq<Node>, ghost below: set<BaseTaskNode>)
    requires n.Valid() && n !in below && |trees| == |nodes|
    requires forall i :: 0 <= i < |nodes| ==> nodes[i].Valid() && nodes[i].Repr <= below && nodes[i].tree == trees[i]
    modifies n
    ensures n.Valid() && n.Repr <= old(n.Repr) + below
    ensures n.tree == old(n.tree).(children := old(n.tree).children + trees)
  {
    for k := 0 to |nodes|
      invariant n.Valid() && n.Repr <= old(n.Repr) + below
      invariant n.tree == old(n.tree).(children := old(n.tree).children + trees[..k])
      invariant forall i :: 0 <= i < |nodes| ==> nodes[i].Valid() && nodes[i].Repr <= below && nodes[i].tree == trees[i]
    {
      n.AddChild(nodes[k]);
    }
  }

  method NewSequenceTaskNode(id: string, mode: string, stopOnError: bool, nodes: seq<BaseTaskNode>) returns (n: BaseTaskNode)
    requires AllValid(nodes)
    ensures n.Valid() && n.tree == SequenceNode(id, mode, stopOnError, old(TreesOf(nodes)))
    ensures n.tree.id == id && n.tree.nodeType == "sequence" && n.tree.children == old(TreesOf(nodes))
    ensures var p := n.tree.params;
            && p.Keys == {"mode", "stop_on_error", "node_count"}
            && p["mode"] == Str(mode) && p["stop_on_error"] == Bool(stopOnError) && p["node_count"] == Int(|nodes|)
    ensures fresh(n) && n.Repr <= {n} + old(Below(nodes))
  {
    ghost var trees, below := TreesOf(nodes), Below(nodes);
    assert forall i :: 0 <= i < |nodes| ==> nodes[i].Valid() && nodes[i].Repr <= below && nodes[i].tree == trees[i];
    hide SequenceParams, TreesOf, Below, AllValid;
    n := new BaseTaskNode(id, "sequence", SequenceParams(mode, stopOnError, |nodes|));
    AddChildren(n, nodes, trees, below);
    assert n.tree.children == trees;
  }

  // ---------------------------------------------------------------- decomposition

  lemma {:induction false} AxisCommandsIgnoreChildren(axes: Config, n: Node, names: seq<string>)
    ensures AxisCommands(axes, n, names) == AxisCommands(axes, n.(children := []), names)
    decreases names
  {
    if names != [] { AxisCommandsIgnoreChildren(axes, n, names[..|names| - 1]); }
  }

  // A leaf is compiled from its own fields.
  lemma LeafIgnoresChildren(env: Env, n: Node)
    ensures CompileLeaf(env, n) == CompileLeaf(env, n.(children := []))
  {
    AxisCommandsIgnoreChildren(env.axes, n, AxesOf(Param(n.params, "axes")));
    hide AxisCommands, AxesOf;
  }

  /** Collects the axis names, then makes one command for each configured axis. */
  method DecomposeMotionNode(env: Env, n: Node) returns (r: Outcome)
    requires IsMotion(n.nodeType)
    ensures r == CompileLeaf(env, n)
  {
    var target, velocity := Param(n.params, "target"), Param(n.params, "velocity");
    if !PointTyped(target) || !VelocityTyped(velocity) { return Panic; }
    var names: seq<string> := [];
    var axes := Param(n.params, "axes");
    if axes.List? {
      for i := 0 to |axes.items|
        invariant forall k :: 0 <= k < i ==> TextOrNil(axes.items[k])
        invariant names == AxisNames(axes.items[..i])
      {
        assert axes.items[..i + 1][..i] == axes.items[..i];
        if !axes.items[i].Nil? {
          if !axes.items[i].Str? { return Panic; }
          names := names + [axes.items[i].text];
        }
      }
      assert axes.items[..|axes.items|] == axes.items;
    }
    var commands: seq<MotionCommand> := [];
    for i := 0 to |names|
      invariant commands == AxisCommands(env.axes, n, names[..i])
    {
      assert names[..i + 1][..i] == names[..i];
      if names[i] in env.axes { commands := commands + [AxisCommand(n, env.axes[names[i]])]; }
    }
    assert names[..|names|] == names;
    return Commands(commands);
  }

  // ---------------------------------------------------------------- reading parameters

  // A text, or nothing when the type assertion would stop the program; a missing text is empty.
  method ReadText(p: Params, key: string) returns (text: Option<string>)
    ensures text == if TextOrNil(Param(p, key)) then Some(Text(Param(p, key))) else None
  {
    text := Some("");
    if key in p && !p[key].Nil? {
      if !p[key].Str? { return None; }
      text := Some(p[key].text);
    }
  }

  method ReadNumber(p: Params, key: string) returns (number: Option<real>)
    ensures number == if NumberOrNil(Param(p, key)) then Some(Number(Param(p, key))) else None
  {
    number := Some(0.0);
    if key in p && !p[key].Nil? {
      if !p[key].Num? { return None; }
      number := Some(p[key].number);
    }
  }

  // The three coordinates of a map of numbers.
  method ReadPoint(fields: Params) returns (point: Option<Point>)
    ensures point == if PointTyped(Obj(fields)) then Some(PointOf(Obj(fields))) else None
  {
    var x := ReadNumber(fields, "x");
    if x.None? { return None; }
    var y := ReadNumber(fields, "y");
    if y.None? { return None; }
    var z := ReadNumber(fields, "z");
    if z.None? { return None; }
    return Some(Point(x.value, y.value, z.value));
  }

  method ReadDevice(p: Params) returns (device: string)
    ensures device == DeviceOf(p)
  {
    device := DEFAULT_DEVICE;
    if "device_id" in p {
      match p["device_id"] {
        case Str(text) => device := text;
        case DevID(text) => device := text;
        case _ =>
      }
    }
  }

  // ---------------------------------------------------------------- leaves

  method DecomposeIONode(env: Env, n: Node) returns (r: Outcome)
    requires n.nodeType == "io"
    ensures r == CompileLeaf(env, n)
  {
    var p := n.params;
    var device := ReadDevice(p);
    var channel := ReadText(p, "channel");
    if channel.None? { return Panic; }
    var action := ReadText(p, "action");
    if action.None? { return Panic; }
    if device !in env.devices { return Error([], NoDevice(device)); }
    var data := NoData;
    match action.value {
      case "set" =>
        var value := Param(p, "value");
        data := IoSet(channel.value, if value.Num? then Some(value.number) else None);
      case "read" => data := IoRead(channel.value);
      case "toggle" => data := IoToggle(channel.value);
      case _ =>
    }
    return Commands([MotionCommand(n.id + "-io", device, "io", ORIGIN, STILL, STILL, data, 5 * SECOND)]);
  }

  method DecomposeMotorNode(env: Env, n: Node) returns (r: Outcome)
    requires n.nodeType == "motor_control"
    ensures r == CompileLeaf(env, n)
  {
    var p := n.params;
    var device := ReadDevice(p);
    var motor := ReadText(p, "motor_id");
    if motor.None? { return Panic; }
    var action := ReadText(p, "action");
    if action.None? { return Panic; }
    if device !in env.devices { return Error([], NoDevice(device)); }
    var data, position := NoData, ORIGIN;
    match action.value {
      case "start" => data := MotorStart(motor.value);
      case "stop" => data := MotorStop(motor.value);
      case "set_speed" =>
        var speed := ReadNumber(p, "speed");
        if speed.None? { return Panic; }
        data := MotorSpeed(motor.value, speed.value);
      case "set_position" =>
        if "position" in p && p["position"].Obj? {
          var target := ReadPoint(p["position"].fields);
          if target.None? { return Panic; }
          position := target.value;
          data := MotorPosition(motor.value, position);
        }
      case _ =>
    }
    return Commands([MotionCommand(n.id + "-motor", device, "motor_control", position, STILL, STILL, data, 10 * SECOND)]);
  }

  method DecomposeMotorStatusNode(env: Env, n: Node) returns (r: Outcome)
    requires n.nodeType == "motor_status"
    ensures r == CompileLeaf(env, n)
  {
    var p := n.params;
    var device := ReadDevice(p);
    var motor := ReadText(p, "motor_id");
    if motor.None? { return Panic; }
    if device !in env.devices { return Error([], NoDevice(device)); }
    return Commands([MotionCommand(n.id + "-status", device, "motor_status", ORIGIN, STILL, STILL, MotorStatus(motor.value), 3 * SECOND)]);
  }

  method DecomposeDelayNode(env: Env, n: Node) returns (r: Outcome)
    requires n.nodeType == "delay"
    ensures r == CompileLeaf(env, n)
  {
    if "duration" !in n.params || !n.params["duration"].Dur? { return Panic; }
    var duration := n.params["duration"].nanos;
    return Commands([MotionCommand(n.id + "-delay", "system", "delay", ORIGIN, STILL, STILL, Delay(duration), duration)]);
  }

  method DecomposeConditionNode(env: Env, n: Node) returns (r: Outcome)
    requires n.nodeType == "condition"
    ensures r == CompileLeaf(env, n)
  {
    var p := n.params;
    var condition := ReadText(p, "condition");
    if condition.None? { return Panic; }
    var device := ReadDevice(p);
    var timeout := 5 * SECOND;
    if "timeout" in p {
      match p["timeout"] {
        case Dur(nanos) => timeout := nanos;
        case Num(number) => timeout := Seconds(Truncate(number));
        case Int64(k) => timeout := Seconds(k);
        case _ =>
      }
    }
    return Commands([MotionCommand(n.id + "-condition", device, "condition", ORIGIN, STILL, STILL, Condition(condition.value), timeout)]);
  }

  method DecomposeLeaf(env: Env, n: Node) returns (r: Outcome)
    requires !IsGroup(n.nodeType)
    ensures r == CompileLeaf(env, n)
  {
    if IsMotion(n.nodeType) { r := DecomposeMotionNode(env, n); return; }
    hide CompileLeaf;
    match n.nodeType {
      case "io" => r := DecomposeIONode(env, n);
      case "motor_control" => r := DecomposeMotorNode(env, n);
      case "motor_status" => r := DecomposeMotorStatusNode(env, n);
      case "delay" => r := DecomposeDelayNode(env, n);
      case "condition" => r := DecomposeConditionNode(env, n);
      case t =>
        UnsupportedLeaf(env, n);
        r := Error([], UnsupportedType(t));
    }
  }

  lemma UnsupportedLeaf(env: Env, n: Node)
    requires !IsSupportedLeaf(n.nodeType)
    ensures CompileLeaf(env, n) == Error([], UnsupportedType(n.nodeType))
  {
  }

  /** Dispatches on the node's type. */
  method DecomposeTaskNode(env: Env, node: BaseTaskNode) returns (r: Outcome)
    requires node.Valid()
    ensures r == Compile(env, node.tree)
    decreases node.Repr, 1
  {
    if IsGroup(node.nodeType) {
      r := DecomposeSequenceNode(env, node);
    } else {
      LeafIgnoresChildren(env, node.tree);
      r := DecomposeLeaf(env, Node(node.id, node.nodeType, node.parameters, []));
    }
  }

  // Once a child has failed, the children after it make no difference.
  lemma {:induction false} FailureStays(env: Env, nodes: seq<Node>, k: nat)
    requires k <= |nodes| && !CompileAll(env, nodes[..k]).Commands?
    ensures CompileAll(env, nodes) == CompileAll(env, nodes[..k])
    decreases |nodes|
  {
    if k < |nodes| {
      assert nodes[..|nodes| - 1][..k] == nodes[..k];
      FailureStays(env, nodes[..|nodes| - 1], k);
    } else {
      assert nodes[..k] == nodes;
    }
  }

  /** Appends the commands of child after child, and stops at the first that fails. */
  method DecomposeSequenceNode(env: Env, node: BaseTaskNode) returns (r: Outcome)
    requires node.Valid()
    ensures r == CompileAll(env, node.tree.children)
    decreases node.Repr, 0
  {
    ghost var trees := node.tree.children;
    var all: seq<MotionCommand> := [];
    for k := 0 to |node.children|
      invariant CompileAll(env, trees[..k]) == Commands(all)
    {
      var child := node.children[k];
      assert trees[..k + 1][..k] == trees[..k];
      var o := DecomposeTaskNode(env, child);
      if !o.Commands? {
        FailureStays(env, trees, k + 1);
        return Within(child.id, o);
      }
      all := all + o.commands;
    }
    assert trees[..|trees|] == trees;
    return Commands(all);
  }

  // ---------------------------------------------------------------- building from configuration

  method CreateIONode(g: Given, p: Params) returns (result: Result<BaseTaskNode, Refusal>)
    ensures IsBuilt(result, BuildLeaf(g, "io", p))
    ensures result.Ok? ==> fresh(result.value.Repr)
  {
    var device := ReadDevice(p);
    var value := ReadNumber(p, "value");
    if value.None? { return Err(Tripped); }
    var channel := ReadText(p, "channel");
    if channel.None? { return Err(Tripped); }
    var action := ReadText(p, "action");
    if action.None? { return Err(Tripped); }
    var n := NewIOTaskNode("io-" + Itoa(g.Now()), IoCommand(device, channel.value, action.value, value.value, 0.0, 5 * SECOND));
    return Ok(n);
  }

  method CreateMotorNode(g: Given, p: Params) returns (result: Result<BaseTaskNode, Refusal>)
    ensures IsBuilt(result, BuildLeaf(g, "motor_control", p))
    ensures result.Ok? ==> fresh(result.value.Repr)
  {
    var device := ReadDevice(p);
    var speed := ReadNumber(p, "speed");
    if speed.None? { return Err(Tripped); }
    var motor := ReadText(p, "motor_id");
    if motor.None? { return Err(Tripped); }
    var action := ReadText(p, "action");
    if action.None? { return Err(Tripped); }
    var n := NewMotorTaskNode("motor-" + Itoa(g.Now()),
                              MotorCommand(device, motor.value, action.value, speed.value, ORIGIN, 0.0, 0.0, 0, false));
    return Ok(n);
  }

  method CreateDelayNode(g: Given, p: Params) returns (result: Result<BaseTaskNode, Refusal>)
    ensures IsBuilt(result, BuildLeaf(g, "delay", p))
    ensures result.Ok? ==> fresh(result.value.Repr)
  {
    var duration := SECOND;
    if "duration" in p {
      match p["duration"] {
        case Dur(nanos) => duration := nanos;
        case Str(text) =>
          var parsed := g.parse(text);
          if parsed.Some? { duration := parsed.value; }
        case Num(number) => duration := Seconds(Truncate(number));
        case Int64(k) => duration := Seconds(k);
        case _ =>
      }
    }
    var unit := "s";
    if "unit" in p && !p["unit"].Nil? {
      if !p["unit"].Str? { return Err(Tripped); }
      unit := p["unit"].text;
    }
    var n := NewDelayTaskNode("delay-" + Itoa(g.Now()), DelayCommand(duration, unit));
    return Ok(n);
  }

  // The node that was built, or the refusal that was met.
  ghost predicate IsBuilt(result: Result<BaseTaskNode, Refusal>, b: Built)
    reads if result.Ok? then {result.value} + result.value.Repr else {}
  {
    match result
    case Ok(n) => n.Valid() && b == Built.Built(n.tree)
    case Err(why) => b == Refused(why)
  }

  /** Builds the node of one configuration map, and for a sequence the nodes of its children first. */
  method CreateTaskNodeFromConfig(g: Given, nodeType: string, config: Value) returns (result: Result<BaseTaskNode, Refusal>)
    requires config.Obj?
    ensures IsBuilt(result, Build(g, nodeType, config))
    ensures result.Ok? ==> fresh(result.value.Repr)
    decreases config, 1
  {
    var p := config.fields;
    match nodeType {
      case "io" => result := CreateIONode(g, p);
      case "motor_control" => result := CreateMotorNode(g, p);
      case "delay" => result := CreateDelayNode(g, p);
      case "sequence" =>
        var nodes: seq<BaseTaskNode> := [];
        if "children" in p && p["children"].List? {
          var built := CreateChildren(g, p["children"].items);
          if built.Err? { return Err(built.error); }
          nodes := built.value;
        }
        var n := NewSequenceTaskNode("seq-" + Itoa(g.Now()), "sequential", true, nodes);
        return Ok(n);
      case t => result := Err(Unsupported(t));
    }
  }

  // Skips what is not a map or names no type, and stops at the first child that is refused.
  method CreateChildren(g: Given, items: seq<Value>) returns (result: Result<seq<BaseTaskNode>, Refusal>)
    ensures match result
            case Ok(nodes) =>
              && AllValid(nodes) && (forall i :: 0 <= i < |nodes| ==> fresh(nodes[i].Repr))
              && BuildChildren(g, items) == Building(TreesOf(nodes))
            case Err(why) => BuildChildren(g, items) == Building.Stopped(why)
    decreases items, 0
  {
    hide Build, Param, Text, TextOrNil;
    var nodes: seq<BaseTaskNode> := [];
    for k := 0 to |items|
      invariant AllValid(nodes) && (forall i :: 0 <= i < |nodes| ==> fresh(nodes[i].Repr))
      invariant BuildChildren(g, items[..k]) == Building(TreesOf(nodes))
    {
      var child := items[k];
      assert items[..k + 1][..k] == items[..k];
      if child.Obj? {
        var t := Param(child.fields, "type");
        if !TextOrNil(t) {
          StopStays(g, items, k + 1);
          return Err(Tripped);
        }
        if Text(t) != "" {
          var built := CreateTaskNodeFromConfig(g.Child(k), Text(t), child);
          if built.Err? {
            StopStays(g, items, k + 1);
            return Err(built.error);
          }
          nodes := nodes + [built.value];
        }
      }
    }
    assert items[..|items|] == items;
    return Ok(nodes);
  }

  lemma {:induction false} StopStays(g: Given, items: seq<Value>, k: nat)
    requires k <= |items| && BuildChildren(g, items[..k]).Stopped?
    ensures BuildChildren(g, items) == BuildChildren(g, items[..k])
    decreases |items|
  {
    if k < |items| {
      assert items[..|items| - 1][..k] == items[..k];
      StopStays(g, items[..|items| - 1], k);
    } else {
      assert items[..k] == items;
    }
  }
}
