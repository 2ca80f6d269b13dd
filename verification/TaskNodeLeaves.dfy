/**
 What each kind of leaf sends, said of its parameters one by one: which of them have to be
 there and of what type, what stands in for a missing one, and every field of the commands.
 */
module TaskNodeLeaves {
  import opened Wrappers
  import opened Motion
  import opened Geometry
  import opened CommandIds
  import opened TaskNodeModel
  import opened TaskNodeBuilder

  // ---------------------------------------------------------------- reading parameters

  // Reading a text or a number stops the program only at a value of another type.
  predicate ReadableText(p: Params, key: string) { key !in p || p[key].Nil? || p[key].Str? }

  predicate ReadableNumber(p: Params, key: string) { key !in p || p[key].Nil? || p[key].Num? }

  function TextAt(p: Params, key: string): string {
    if key in p && p[key].Str? then p[key].text else ""
  }

  function NumberAt(p: Params, key: string): real {
    if key in p && p[key].Num? then p[key].number else 0.0
  }

  function DeviceAt(p: Params): string {
    if "device_id" in p && p["device_id"].Str? then p["device_id"].text
    else if "device_id" in p && p["device_id"].DevID? then p["device_id"].text
    else "device-1"
  }

  predicate ReadablePoint(p: Params, key: string) {
    key in p && p[key].Obj? ==> ReadableNumber(p[key].fields, "x") && ReadableNumber(p[key].fields, "y") && ReadableNumber(p[key].fields, "z")
  }

  function PointAt(p: Params, key: string): Point {
    if key in p && p[key].Obj? then Point(NumberAt(p[key].fields, "x"), NumberAt(p[key].fields, "y"), NumberAt(p[key].fields, "z"))
    else Point(0.0, 0.0, 0.0)
  }

  predicate ReadableVelocity(p: Params, key: string) {
    key in p && p[key].Obj? ==> ReadableNumber(p[key].fields, "linear") && ReadableNumber(p[key].fields, "angular")
  }

  function VelocityAt(p: Params, key: string): Velocity {
    if key in p && p[key].Obj? then Velocity(NumberAt(p[key].fields, "linear"), NumberAt(p[key].fields, "angular")) else Velocity(0.0, 0.0)
  }

  // ---------------------------------------------------------------- what the leaves send

  function Sends(id: string, device: string, commandType: string, data: Payload, timeout: int): Outcome {
    Commands([MotionCommand(id, device, commandType, Point(0.0, 0.0, 0.0), Velocity(0.0, 0.0), Velocity(0.0, 0.0), data, timeout)])
  }

  /** An IO leaf: set, read or toggle a channel within five seconds; any other action sends no payload. */
  lemma IoLeaf(env: Env, n: Node)
    requires n.nodeType == "io"
    ensures var p := n.params;
            var (channel, action) := (TextAt(p, "channel"), TextAt(p, "action"));
            Compile(env, n) ==
              if !ReadableText(p, "channel") || !ReadableText(p, "action") then Panic
              else if DeviceAt(p) !in env.devices then Error([], NoDevice(DeviceAt(p)))
              else Sends(n.id + "-io", DeviceAt(p), "io",
                         if action == "set" then IoSet(channel, if "value" in p && p["value"].Num? then Some(p["value"].number) else None)
                         else if action == "read" then IoRead(channel)
                         else if action == "toggle" then IoToggle(channel)
                         else NoData, 5_000_000_000)
  {
  }

  /** A motor leaf: what its action needs is read only after its device was found, and a position only from a map. */
  lemma MotorLeaf(env: Env, n: Node)
    requires n.nodeType == "motor_control"
    ensures var p := n.params;
            var (motor, action) := (TextAt(p, "motor_id"), TextAt(p, "action"));
            var placed := action == "set_position" && "position" in p && p["position"].Obj?;
            Compile(env, n) ==
              if !ReadableText(p, "motor_id") || !ReadableText(p, "action") then Panic
              else if DeviceAt(p) !in env.devices then Error([], NoDevice(DeviceAt(p)))
              else if action == "set_speed" && !ReadableNumber(p, "speed") then Panic
              else if placed && !ReadablePoint(p, "position") then Panic
              else Commands([MotionCommand(n.id + "-motor", DeviceAt(p), "motor_control",
                                           if placed then PointAt(p, "position") else Point(0.0, 0.0, 0.0), Velocity(0.0, 0.0), Velocity(0.0, 0.0),
                                           if action == "start" then MotorStart(motor)
                                           else if action == "stop" then MotorStop(motor)
                                           else if action == "set_speed" then MotorSpeed(motor, NumberAt(p, "speed"))
                                           else if placed then MotorPosition(motor, PointAt(p, "position"))
                                           else NoData, 10_000_000_000)])
  {
  }

  /** A status leaf asks for one motor, within three seconds. */
  lemma MotorStatusLeaf(env: Env, n: Node)
    requires n.nodeType == "motor_status"
    ensures var p := n.params;
            Compile(env, n) ==
              if !ReadableText(p, "motor_id") then Panic
              else if DeviceAt(p) !in env.devices then Error([], NoDevice(DeviceAt(p)))
              else Sends(n.id + "-status", DeviceAt(p), "motor_status", MotorStatus(TextAt(p, "motor_id")), 3_000_000_000)
  {
  }

  /** A delay leaf waits for its duration, on no device, and stops the program unless it has one. */
  lemma DelayLeaf(env: Env, n: Node)
    requires n.nodeType == "delay"
    ensures var p := n.params;
            Compile(env, n) ==
              if "duration" !in p || !p["duration"].Dur? then Panic
              else Sends(n.id + "-delay", "system", "delay", Delay(p["duration"].nanos), p["duration"].nanos)
  {
  }

  /** A condition leaf sends its condition whether or not the device is there; it waits for a duration, for a number of seconds, or for five seconds. */
  lemma ConditionLeaf(env: Env, n: Node)
    requires n.nodeType == "condition"
    ensures var p := n.params;
            Compile(env, n) ==
              if !ReadableText(p, "condition") then Panic
              else Sends(n.id + "-condition", DeviceAt(p), "condition", Condition(TextAt(p, "condition")),
                         if "timeout" !in p then 5_000_000_000
                         else match p["timeout"]
                              case Dur(nanos) => nanos
                              case Num(x) => Wrap64(Truncate(x) * 1_000_000_000)
                              case Int64(k) => Wrap64(k * 1_000_000_000)
                              case _ => 5_000_000_000)
  {
  }

  /** Wrapping to 64 bits keeps the value modulo two to the power of 64. */
  lemma WrapIs(x: int)
    ensures -0x8000_0000_0000_0000 <= Wrap64(x) < 0x8000_0000_0000_0000 && (x - Wrap64(x)) % 0x1_0000_0000_0000_0000 == 0
  {
    var q := (x + 0x8000_0000_0000_0000) / 0x1_0000_0000_0000_0000;
    assert x - Wrap64(x) == q * 0x1_0000_0000_0000_0000;
  }

  /** A leaf of an unknown type is an error, whatever its parameters. */
  lemma UnknownLeaf(env: Env, n: Node)
    requires n.nodeType !in {"move_to", "move_relative", "home", "stop", "jog", "io", "motor_control", "motor_status", "delay", "condition",
                             "sequence", "parallel"}
    ensures Compile(env, n) == Error([], UnsupportedType(n.nodeType))
  {
  }

  // ---------------------------------------------------------------- motions

  // The texts among some values, in order.
  function TextsOf(items: seq<Value>): seq<string> {
    if items == [] then []
    else if items[0].Str? then [items[0].text] + TextsOf(items[1..])
    else TextsOf(items[1..])
  }

  function Configured(axes: Config, names: seq<string>): seq<AxisConfig> {
    if names == [] then []
    else if names[0] in axes then [axes[names[0]]] + Configured(axes, names[1..])
    else Configured(axes, names[1..])
  }

  function NamesAt(p: Params): seq<string> {
    if "axes" in p && p["axes"].List? then TextsOf(p["axes"].items) else []
  }

  predicate ReadableNames(p: Params) {
    "axes" in p && p["axes"].List? ==> forall i :: 0 <= i < |p["axes"].items| ==> p["axes"].items[i].Nil? || p["axes"].items[i].Str?
  }

  // What a motion leaf sends to one of its axes.
  function Moves(n: Node, cfg: AxisConfig): MotionCommand {
    var still := Velocity(0.0, 0.0);
    if n.nodeType == "home" then
      MotionCommand("", cfg.deviceId, "home", Point(cfg.homePosition, 0.0, 0.0), Velocity(cfg.maxVelocity / 2.0, 0.0),
                    Velocity(cfg.maxAcceleration / 2.0, 0.0), NoData, 0)
    else if n.nodeType == "stop" then MotionCommand("", cfg.deviceId, "stop", Point(0.0, 0.0, 0.0), still, still, NoData, 0)
    else MotionCommand("", cfg.deviceId, n.nodeType, PointAt(n.params, "target"), VelocityAt(n.params, "velocity"),
                       Velocity(cfg.maxAcceleration, 0.0), NoData, 0)
  }

  lemma {:induction false} NamesAppend(a: seq<Value>, b: seq<Value>)
    ensures TextsOf(a + b) == TextsOf(a) + TextsOf(b)
    decreases a
  {
    if a == [] {
      assert a + b == b;
    } else {
      assert (a + b)[0] == a[0] && (a + b)[1..] == a[1..] + b;
      NamesAppend(a[1..], b);
    }
  }

  lemma {:induction false} AxisNamesAre(items: seq<Value>)
    requires forall i :: 0 <= i < |items| ==> items[i].Nil? || items[i].Str?
    ensures AxisNames(items) == TextsOf(items)
    decreases items
  {
    if items != [] {
      var last := |items| - 1;
      assert items == items[..last] + [items[last]] && [items[last]][1..] == [];
      NamesAppend(items[..last], [items[last]]);
      AxisNamesAre(items[..last]);
    }
  }

  lemma {:induction false} ConfiguredAppend(axes: Config, a: seq<string>, b: seq<string>)
    ensures Configured(axes, a + b) == Configured(axes, a) + Configured(axes, b)
    decreases a
  {
    if a == [] {
      assert a + b == b;
    } else {
      assert (a + b)[0] == a[0] && (a + b)[1..] == a[1..] + b;
      ConfiguredAppend(axes, a[1..], b);
    }
  }

  lemma {:induction false} AxisCommandsAre(axes: Config, n: Node, names: seq<string>)
    requires IsMotion(n.nodeType)
    ensures |AxisCommands(axes, n, names)| == |Configured(axes, names)|
    ensures forall i :: 0 <= i < |Configured(axes, names)| ==> AxisCommands(axes, n, names)[i] == Moves(n, Configured(axes, names)[i])
    decreases names
  {
    if names != [] {
      var last := |names| - 1;
      assert names == names[..last] + [names[last]] && [names[last]][1..] == [];
      ConfiguredAppend(axes, names[..last], [names[last]]);
      AxisCommandsAre(axes, n, names[..last]);
      if names[last] in axes { AxisCommandIs(n, axes[names[last]]); }
      hide AxisCommand, Moves;
    }
  }

  lemma AxisCommandIs(n: Node, cfg: AxisConfig)
    requires IsMotion(n.nodeType)
    ensures AxisCommand(n, cfg) == Moves(n, cfg)
  {
  }

  /** A motion leaf sends one command to each configured axis it names, in order: home at half speeds, stop at once, everything else to its target. It stops the program exactly at a value of another type among those it reads. */
  lemma MotionLeaf(env: Env, n: Node)
    requires n.nodeType in {"move_to", "move_relative", "home", "stop", "jog"}
    ensures var p := n.params;
            var to := Configured(env.axes, NamesAt(p));
            if !ReadablePoint(p, "target") || !ReadableVelocity(p, "velocity") || !ReadableNames(p) then Compile(env, n) == Panic
            else
              && Compile(env, n).Commands? && |Compile(env, n).commands| == |to|
              && forall i :: 0 <= i < |to| ==> Compile(env, n).commands[i] == Moves(n, to[i])
  {
    var p := n.params;
    MotionTyped(n);
    if WellTyped(n) && "axes" in p && p["axes"].List? { AxisNamesAre(p["axes"].items); }
    hide WellTyped, Moves, AxisCommands, Configured, TextsOf, AxisNames;
    AxisCommandsAre(env.axes, n, NamesAt(p));
  }

  lemma MotionTyped(n: Node)
    requires IsMotion(n.nodeType)
    ensures WellTyped(n) <==> ReadablePoint(n.params, "target") && ReadableVelocity(n.params, "velocity") && ReadableNames(n.params)
  {
  }

  // ---------------------------------------------------------------- built from configuration

  /** A delay node built from a configuration waits for what that says: a duration, a text that parses to one, a number of seconds, and one second otherwise. */
  lemma DelayConfigured(g: Given, env: Env, p: Params)
    ensures var built := Build(g, "delay", Obj(p));
            var d := if "duration" !in p then 1_000_000_000
                     else match p["duration"]
                          case Dur(nanos) => nanos
                          case Str(text) => if g.parse(text).Some? then g.parse(text).value else 1_000_000_000
                          case Num(x) => Wrap64(Truncate(x) * 1_000_000_000)
                          case Int64(k) => Wrap64(k * 1_000_000_000)
                          case _ => 1_000_000_000;
            if !ReadableText(p, "unit") then built == Refused(Tripped)
            else
              && built == Built(DelayNode("delay-" + Itoa(g.Now()), DelayCommand(d, if "unit" in p && p["unit"].Str? then p["unit"].text else "s")))
              && Compile(env, built.node) == Sends("delay-" + Itoa(g.Now()) + "-delay", "system", "delay", Delay(d), d)
  {
  }

  lemma IoNodeSays(env: Env, id: string, c: IoCommand)
    ensures Compile(env, IoNode(id, c)) ==
              if c.deviceId !in env.devices then Error([], NoDevice(c.deviceId))
              else Sends(id + "-io", c.deviceId, "io",
                         if c.action == "set" then IoSet(c.channel, Some(c.value))
                         else if c.action == "read" then IoRead(c.channel)
                         else if c.action == "toggle" then IoToggle(c.channel)
                         else NoData, 5_000_000_000)
  {
    IoLeaf(env, IoNode(id, c));
    hide Compile;
  }

  /** An IO node built from a configuration carries its device, channel, action and value to the command. */
  lemma IoConfigured(g: Given, env: Env, p: Params)
    ensures var built := Build(g, "io", Obj(p));
            var (channel, action) := (TextAt(p, "channel"), TextAt(p, "action"));
            if !ReadableNumber(p, "value") || !ReadableText(p, "channel") || !ReadableText(p, "action") then built == Refused(Tripped)
            else
              && built == Built(IoNode("io-" + Itoa(g.Now()), IoCommand(DeviceAt(p), channel, action, NumberAt(p, "value"), 0.0, 5_000_000_000)))
              && Compile(env, built.node) ==
                   if DeviceAt(p) !in env.devices then Error([], NoDevice(DeviceAt(p)))
                   else Sends("io-" + Itoa(g.Now()) + "-io", DeviceAt(p), "io",
                              if action == "set" then IoSet(channel, Some(NumberAt(p, "value")))
                              else if action == "read" then IoRead(channel)
                              else if action == "toggle" then IoToggle(channel)
                              else NoData, 5_000_000_000)
  {
    if ReadableNumber(p, "value") && ReadableText(p, "channel") && ReadableText(p, "action") {
      var c := IoFrom(DeviceAt(p), TextAt(p, "channel"), TextAt(p, "action"), NumberAt(p, "value"));
      assert Build(g, "io", Obj(p)) == Built(IoNode("io-" + Itoa(g.Now()), c));
      hide Compile, IoNode, Build;
      IoNodeSays(env, "io-" + Itoa(g.Now()), c);
    }
  }

  /** A motor node built from a configuration carries its device, motor, action and speed to the command. */
  lemma MotorConfigured(g: Given, env: Env, p: Params)
    ensures var built := Build(g, "motor_control", Obj(p));
            var (motor, action) := (TextAt(p, "motor_id"), TextAt(p, "action"));
            if !ReadableNumber(p, "speed") || !ReadableText(p, "motor_id") || !ReadableText(p, "action") then built == Refused(Tripped)
            else
              && built == Built(MotorNode("motor-" + Itoa(g.Now()), MotorCommand(DeviceAt(p), motor, action, NumberAt(p, "speed"), Point(0.0, 0.0, 0.0), 0.0, 0.0, 0, false)))
              && Compile(env, built.node) ==
                   if DeviceAt(p) !in env.devices then Error([], NoDevice(DeviceAt(p)))
                   else Sends("motor-" + Itoa(g.Now()) + "-motor", DeviceAt(p), "motor_control",
                              if action == "start" then MotorStart(motor)
                              else if action == "stop" then MotorStop(motor)
                              else if action == "set_speed" then MotorSpeed(motor, NumberAt(p, "speed"))
                              else NoData, 10_000_000_000)
  {
    if ReadableNumber(p, "speed") && ReadableText(p, "motor_id") && ReadableText(p, "action") {
      var c := MotorFrom(DeviceAt(p), TextAt(p, "motor_id"), TextAt(p, "action"), NumberAt(p, "speed"));
      assert Build(g, "motor_control", Obj(p)) == Built(MotorNode("motor-" + Itoa(g.Now()), c));
      assert Compile(env, MotorNode("motor-" + Itoa(g.Now()), c)) == CompileLeaf(env, MotorNode("motor-" + Itoa(g.Now()), c));
      hide Compile, CompileLeaf, MotorNode, Build;
      MotorNodeSays(env, "motor-" + Itoa(g.Now()), c);
    }
  }

  // A configuration the builder can make a node of, all the way down: known types, readable
  // values, and children that are maps naming a type; children that are not, or name none, are passed over.
  ghost predicate Buildable(nodeType: string, config: Value)
    requires config.Obj?
    decreases config, 1
  {
    var p := config.fields;
    match nodeType
    case "io" => ReadableNumber(p, "value") && ReadableText(p, "channel") && ReadableText(p, "action")
    case "motor_control" => ReadableNumber(p, "speed") && ReadableText(p, "motor_id") && ReadableText(p, "action")
    case "delay" => ReadableText(p, "unit")
    case "sequence" => "children" in p && p["children"].List? ==> AllBuildable(p["children"].items)
    case _ => false
  }

  ghost predicate AllBuildable(items: seq<Value>)
    decreases items, 0
  {
    forall i :: 0 <= i < |items| && items[i].Obj? ==>
      ReadableText(items[i].fields, "type") && (TextAt(items[i].fields, "type") != "" ==> Buildable(TextAt(items[i].fields, "type"), items[i]))
  }

  /** The builder accepts exactly these configurations. */
  lemma {:induction false} BuiltIff(g: Given, nodeType: string, config: Value)
    requires config.Obj?
    ensures Build(g, nodeType, config).Built? <==> Buildable(nodeType, config)
    decreases config, 1
  {
    var p := config.fields;
    if nodeType == "sequence" {
      if "children" in p && p["children"].List? {
        ChildrenBuiltIff(g, p["children"].items);
      }
    }
  }

  lemma {:induction false} ChildrenBuiltIff(g: Given, items: seq<Value>)
    ensures BuildChildren(g, items).Building? <==> AllBuildable(items)
    decreases items, 0
  {
    if items != [] {
      var last := |items| - 1;
      ChildrenBuiltIff(g, items[..last]);
      assert forall i :: 0 <= i < last ==> items[..last][i] == items[i];
      if items[last].Obj? && TextAt(items[last].fields, "type") != "" {
        BuiltIff(g.Child(last), TextAt(items[last].fields, "type"), items[last]);
      }
      hide Build, Buildable;
      LastBuildable(items);
    }
  }

  lemma LastBuildable(items: seq<Value>)
    requires items != []
    ensures var last := |items| - 1;
            AllBuildable(items) <==>
              && AllBuildable(items[..last])
              && (items[last].Obj? ==>
                    && ReadableText(items[last].fields, "type")
                    && (TextAt(items[last].fields, "type") != "" ==> Buildable(TextAt(items[last].fields, "type"), items[last])))
  {
    hide Buildable, ReadableText, TextAt;
    var last := |items| - 1;
    assert forall i :: 0 <= i < last ==> items[..last][i] == items[i];
  }

  /** A sequence node built from a configuration runs its children one after the other and stops at an error. */
  lemma SequenceConfigured(g: Given, p: Params)
    requires Build(g, "sequence", Obj(p)).Built?
    ensures var n := Build(g, "sequence", Obj(p)).node;
            && n.id == "seq-" + Itoa(g.Now()) && n.nodeType == "sequence"
            && n.params == map["mode" := Str("sequential"), "stop_on_error" := Bool(true), "node_count" := Int(|n.children|)]
  {
  }
}
