/**
 Building task nodes from configuration maps, and what a built tree compiles to. Each node
 is numbered by its own reading of the clock; the readings and the parser of duration texts
 are given from outside.
 */
module TaskNodeBuilder {
  import opened Wrappers
  import opened Motion
  import opened Geometry
  import opened CommandIds
  import opened TaskNodeModel

  // An error for a node type, or an assertion that stops the program.
  datatype Refusal = Unsupported(nodeType: string) | Tripped

  datatype Built = Built(node: Node) | Refused(why: Refusal)

  datatype Building = Building(nodes: seq<Node>) | Stopped(why: Refusal)

  // What is read from outside: the clock, by the place of the node that reads it, and the parser of duration texts.
  datatype Given = Given(clock: seq<nat> -> nat, place: seq<nat>, parse: string -> Option<int>)
  {
    function Now(): nat { clock(place) }

    function Child(i: nat): Given { this.(place := place + [i]) }
  }

  // ---------------------------------------------------------------- constructors

  // What the constructors of the node kinds are given.
  datatype IoCommand = IoCommand(deviceId: string, channel: string, action: string, value: real, threshold: real, timeout: int)

  datatype MotorCommand = MotorCommand(
    deviceId: string, motorId: string, action: string, speed: real, position: Point,
    acceleration: real, torque: real, direction: int, enable: bool
  )

  datatype DelayCommand = DelayCommand(duration: int, unit: string)

  function IoNode(id: string, c: IoCommand): Node {
    Node(id, "io", map["device_id" := DevID(c.deviceId), "channel" := Str(c.channel), "action" := Str(c.action), "value" := Num(c.value),
                       "threshold" := Num(c.threshold), "timeout" := Dur(c.timeout)], [])
  }

  function MotorNode(id: string, c: MotorCommand): Node {
    Node(id, "motor_control", map["device_id" := DevID(c.deviceId), "motor_id" := Str(c.motorId), "action" := Str(c.action), "speed" := Num(c.speed),
                                  "position" := PointValue(c.position), "acceleration" := Num(c.acceleration), "torque" := Num(c.torque),
                                  "direction" := Int(c.direction), "enable" := Bool(c.enable)], [])
  }

  function DelayNode(id: string, c: DelayCommand): Node {
    Node(id, "delay", map["duration" := Dur(c.duration), "unit" := Str(c.unit)], [])
  }

  function SequenceParams(mode: string, stopOnError: bool, count: nat): Params {
    map["mode" := Str(mode), "stop_on_error" := Bool(stopOnError), "node_count" := Int(count)]
  }

  function SequenceNode(id: string, mode: string, stopOnError: bool, nodes: seq<Node>): Node {
    Node(id, "sequence", SequenceParams(mode, stopOnError, |nodes|), nodes)
  }

  // ---------------------------------------------------------------- building

  // A duration value, a text, or a number of seconds; anything else, and a text that does not parse, is one second.
  function DurationOf(v: Value, parse: string -> Option<int>): int {
    match v
    case Dur(nanos) => nanos
    case Str(text) => if parse(text).Some? then parse(text).value else SECOND
    case Num(number) => Seconds(Truncate(number))
    case Int64(n) => Seconds(n)
    case _ => SECOND
  }

  // A configuration sets these parts of a command; the others have their zero values.
  function IoFrom(device: string, channel: string, action: string, value: real): IoCommand {
    IoCommand(device, channel, action, value, 0.0, 5 * SECOND)
  }

  function MotorFrom(device: string, motor: string, action: string, speed: real): MotorCommand {
    MotorCommand(device, motor, action, speed, ORIGIN, 0.0, 0.0, 0, false)
  }

  function BuildLeaf(g: Given, nodeType: string, p: Params): Built {
    match nodeType
    case "io" =>
      if !(NumberOrNil(Param(p, "value")) && TextOrNil(Param(p, "channel")) && TextOrNil(Param(p, "action"))) then Refused(Tripped)
      else Built(IoNode("io-" + Itoa(g.Now()), IoFrom(DeviceOf(p), Text(Param(p, "channel")), Text(Param(p, "action")), Number(Param(p, "value")))))
    case "motor_control" =>
      if !(NumberOrNil(Param(p, "speed")) && TextOrNil(Param(p, "motor_id")) && TextOrNil(Param(p, "action"))) then Refused(Tripped)
      else Built(MotorNode("motor-" + Itoa(g.Now()), MotorFrom(DeviceOf(p), Text(Param(p, "motor_id")), Text(Param(p, "action")), Number(Param(p, "speed")))))
    case "delay" =>
      if !TextOrNil(Param(p, "unit")) then Refused(Tripped)
      else Built(DelayNode("delay-" + Itoa(g.Now()), DelayCommand(DurationOf(Param(p, "duration"), g.parse),
                                                                if Param(p, "unit").Str? then Param(p, "unit").text else "s")))
    case t => Refused(Unsupported(t))
  }

  // A configuration is a map value; the children of a sequence are the maps in its list that name a type.
  function Build(g: Given, nodeType: string, config: Value): Built
    requires config.Obj?
    decreases config, 1
  {
    if nodeType == "sequence" then
      var children := Param(config.fields, "children");
      var built := if children.List? then BuildChildren(g, children.items) else Building([]);
      match built
      case Building(nodes) => Built(SequenceNode("seq-" + Itoa(g.Now()), "sequential", true, nodes))
      case Stopped(why) => Refused(why)
    else BuildLeaf(g, nodeType, config.fields)
  }

  function BuildChildren(g: Given, items: seq<Value>): Building
    decreases items, 0
  {
    if items == [] then Building([])
    else
      var last := items[|items| - 1];
      match BuildChildren(g, items[..|items| - 1])
      case Stopped(why) => Stopped(why)
      case Building(nodes) =>
        if !last.Obj? then Building(nodes)
        else if !TextOrNil(Param(last.fields, "type")) then Stopped(Tripped)
        else if Text(Param(last.fields, "type")) == "" then Building(nodes)
        else
          match Build(g.Child(|items| - 1), Text(Param(last.fields, "type")), last)
          case Built(node) => Building(nodes + [node])
          case Refused(why) => Stopped(why)
  }

  // ---------------------------------------------------------------- what a configuration asks for

  datatype Wanted =
    | WantIo(now: nat, device: string, channel: string, action: string, value: real)
    | WantMotor(now: nat, device: string, motor: string, action: string, speed: real)
    | WantDelay(now: nat, duration: int)

  // Read off the configuration alone: the typed leaves, from left to right.
  function WantedBy(g: Given, nodeType: string, config: Value): seq<Wanted>
    requires config.Obj?
    decreases config, 1
  {
    var p := config.fields;
    match nodeType
    case "sequence" => if Param(p, "children").List? then WantedByAll(g, Param(p, "children").items) else []
    case "io" => [WantIo(g.Now(), DeviceOf(p), Text(Param(p, "channel")), Text(Param(p, "action")), Number(Param(p, "value")))]
    case "motor_control" => [WantMotor(g.Now(), DeviceOf(p), Text(Param(p, "motor_id")), Text(Param(p, "action")), Number(Param(p, "speed")))]
    case "delay" => [WantDelay(g.Now(), DurationOf(Param(p, "duration"), g.parse))]
    case _ => []
  }

  function WantedByAll(g: Given, items: seq<Value>): seq<Wanted>
    decreases items, 0
  {
    if items == [] then []
    else
      var last := items[|items| - 1];
      var before := WantedByAll(g, items[..|items| - 1]);
      if !last.Obj? then before else before + WantedBy(g.Child(|items| - 1), Text(Param(last.fields, "type")), last)
  }

  // The command a wanted leaf should become. A position is never carried over from a configuration.
  function CommandFor(w: Wanted): MotionCommand {
    match w
    case WantIo(now, device, channel, action, value) =>
      var data := if action == "set" then IoSet(channel, Some(value))
                  else if action == "read" then IoRead(channel)
                  else if action == "toggle" then IoToggle(channel)
                  else NoData;
      MotionCommand("io-" + Itoa(now) + "-io", device, "io", ORIGIN, STILL, STILL, data, 5 * SECOND)
    case WantMotor(now, device, motor, action, speed) =>
      var data := if action == "start" then MotorStart(motor)
                  else if action == "stop" then MotorStop(motor)
                  else if action == "set_speed" then MotorSpeed(motor, speed)
                  else NoData;
      MotionCommand("motor-" + Itoa(now) + "-motor", device, "motor_control", ORIGIN, STILL, STILL, data, 10 * SECOND)
    case WantDelay(now, duration) =>
      MotionCommand("delay-" + Itoa(now) + "-delay", "system", "delay", ORIGIN, STILL, STILL, Delay(duration), duration)
  }

  predicate Served(env: Env, w: Wanted) {
    match w
    case WantIo(_, device, _, _, _) => device in env.devices
    case WantMotor(_, device, _, _, _) => device in env.devices
    case WantDelay(_, _) => true
  }

  // A node that says what is wanted; the unit of a delay is free.
  ghost predicate Says(n: Node, w: Wanted) {
    match w
    case WantIo(now, device, channel, action, value) => n == IoNode("io-" + Itoa(now), IoFrom(device, channel, action, value))
    case WantMotor(now, device, motor, action, speed) => n == MotorNode("motor-" + Itoa(now), MotorFrom(device, motor, action, speed))
    case WantDelay(now, duration) => exists unit :: n == DelayNode("delay-" + Itoa(now), DelayCommand(duration, unit))
  }

  ghost predicate AllSay(nodes: seq<Node>, ws: seq<Wanted>) {
    |nodes| == |ws| && forall i :: 0 <= i < |ws| ==> Says(nodes[i], ws[i])
  }

  lemma LeafSays(g: Given, nodeType: string, config: Value)
    requires config.Obj? && nodeType != "sequence" && BuildLeaf(g, nodeType, config.fields).Built?
    ensures var n := BuildLeaf(g, nodeType, config.fields).node;
            Leaves(n) == [n] && AllSay([n], WantedBy(g, nodeType, config))
  {
  }

  lemma {:induction false} BuildSays(g: Given, nodeType: string, config: Value)
    requires config.Obj? && Build(g, nodeType, config).Built?
    ensures AllSay(Leaves(Build(g, nodeType, config).node), WantedBy(g, nodeType, config))
    decreases config, 1
  {
    hide Says, BuildLeaf;
    if nodeType == "sequence" {
      var children := Param(config.fields, "children");
      if children.List? { ChildrenSay(g, children.items); }
    } else {
      LeafSays(g, nodeType, config);
    }
  }

  lemma {:induction false} ChildrenSay(g: Given, items: seq<Value>)
    requires BuildChildren(g, items).Building?
    ensures AllSay(LeavesOf(BuildChildren(g, items).nodes), WantedByAll(g, items))
    decreases items, 0
  {
    hide Says, BuildLeaf, Build, Leaves;
    if items != [] {
      var last := items[|items| - 1];
      ChildrenSay(g, items[..|items| - 1]);
      if last.Obj? {
        var t := Text(Param(last.fields, "type"));
        var before := BuildChildren(g, items[..|items| - 1]).nodes;
        if t == "" {
          assert WantedBy(g.Child(|items| - 1), t, last) == [];
        } else {
          BuildSays(g.Child(|items| - 1), t, last);
          var node := Build(g.Child(|items| - 1), t, last).node;
          assert (before + [node])[..|before|] == before;
          assert LeavesOf(before + [node]) == LeavesOf(before) + Leaves(node);
        }
      }
    }
  }

  lemma IoCompiles(env: Env, n: Node, w: Wanted)
    requires w.WantIo? && Says(n, w)
    ensures WellTyped(n) && (Compiles(env, n) <==> Served(env, w)) && LeafCommands(env, n) == [CommandFor(w)]
  {
  }

  lemma MotorCompiles(env: Env, n: Node, w: Wanted)
    requires w.WantMotor? && Says(n, w)
    ensures WellTyped(n) && (Compiles(env, n) <==> Served(env, w)) && LeafCommands(env, n) == [CommandFor(w)]
  {
  }

  // A node that says what is wanted trips no assertion and compiles to the wanted command.
  lemma SaysCompiles(env: Env, n: Node, w: Wanted)
    requires Says(n, w)
    ensures WellTyped(n) && (Compiles(env, n) <==> Served(env, w)) && LeafCommands(env, n) == [CommandFor(w)]
  {
    if w.WantIo? { IoCompiles(env, n, w); }
    else if w.WantMotor? { MotorCompiles(env, n, w); }
  }

  lemma {:induction false} CommandsSay(env: Env, nodes: seq<Node>, ws: seq<Wanted>)
    requires AllSay(nodes, ws)
    ensures |AllLeafCommands(env, nodes)| == |ws|
    ensures forall i :: 0 <= i < |ws| ==> AllLeafCommands(env, nodes)[i] == CommandFor(ws[i])
    decreases nodes
  {
    hide Says, LeafCommands, CommandFor;
    if nodes != [] {
      var last := |nodes| - 1;
      assert AllSay(nodes[..last], ws[..last]);
      CommandsSay(env, nodes[..last], ws[..last]);
      SaysCompiles(env, nodes[last], ws[last]);
    }
  }

  /** A motor node hands on its device, motor, action and speed; position, acceleration, torque, direction and enable of its command are lost, so that setting a position carries none. */
  lemma MotorNodeSays(env: Env, id: string, c: MotorCommand)
    ensures var data := if c.action == "start" then MotorStart(c.motorId)
                        else if c.action == "stop" then MotorStop(c.motorId)
                        else if c.action == "set_speed" then MotorSpeed(c.motorId, c.speed)
                        else NoData;
            CompileLeaf(env, MotorNode(id, c))
            == if c.deviceId in env.devices
               then Commands([MotionCommand(id + "-motor", c.deviceId, "motor_control", ORIGIN, STILL, STILL, data, 10 * SECOND)])
               else Error([], NoDevice(c.deviceId))
  {
    var p := MotorNode(id, c).params;
    assert Param(p, "motor_id") == Str(c.motorId) && Param(p, "action") == Str(c.action) && Param(p, "speed") == Num(c.speed);
    assert Param(p, "position") == PointValue(c.position) && Param(p, "device_id") == DevID(c.deviceId);
  }

  /**
   Whatever configuration the builder accepts, however deeply nested: its tree never panics
   in compilation; it compiles exactly when the device of every IO and motor leaf is
   registered; and the commands are then those the configuration asks for, one for each
   typed leaf and in their order, a delay's timeout being its configured duration.
   */
  lemma BuildThenCompile(g: Given, env: Env, nodeType: string, config: Value)
    requires config.Obj? && Build(g, nodeType, config).Built?
    ensures var ws := WantedBy(g, nodeType, config);
            var outcome := Compile(env, Build(g, nodeType, config).node);
            && outcome != Panic
            && (outcome.Commands? <==> forall i :: 0 <= i < |ws| ==> Served(env, ws[i]))
            && (outcome.Commands? ==> |outcome.commands| == |ws| && forall i :: 0 <= i < |ws| ==> outcome.commands[i] == CommandFor(ws[i]))
  {
    var n, ws := Build(g, nodeType, config).node, WantedBy(g, nodeType, config);
    BuildSays(g, nodeType, config);
    forall i | 0 <= i < |ws| ensures Works(env, Leaves(n)[i]) <==> Served(env, ws[i]) {
      SaysCompiles(env, Leaves(n)[i], ws[i]);
    }
    forall i: nat | i < |ws| ensures !Trips(env, Leaves(n)[i]) {
      SaysCompiles(env, Leaves(n)[i], ws[i]);
      TypedAlsoBefore(Leaves(n)[i]);
    }
    hide *;
    hide Says, Works, Trips, Served, CommandFor, Build, Compile, Leaves, WantedBy;
    CompileOutcome(env, n);
    CommandsSay(env, Leaves(n), ws);
  }
}
