/**
 Queue and executor at work together. Both channels have two readers, so every receive is
 a choice; each goroutine is a pool of commands it still has to deal with, and its steps
 interleave with everyone else's.
 */
module CommandPipeline {
  import opened Wrappers
  import opened Motion
  import opened CommandIds
  import opened QueueModel
  import opened QueueIndex

  // What happened so far, by command ID.
  datatype Log = Log(
    pushes: multiset<string>,  // pushes that were accepted
    sents: multiset<string>,   // commands marked sent
    starts: multiset<string>,  // commands marked started
    writes: multiset<string>   // device writes by the executor
  )

  datatype System = System(
    q: Queue,
    toSend: seq<Item>,                        // received by the queue, not yet marked sent
    waiting: seq<Item>,                       // marked sent, waiting for the timeout
    toStart: seq<Item>,                       // received by the executor, not yet marked started
    toRun: seq<Item>,                         // marked started, device not yet looked up
    toReport: seq<(Item, Option<string>)>,    // outcome known, not yet marked completed
    toClean: seq<Item>,                       // completions received by the queue
    log: Log
  )

  function Start(q: Queue): System {
    System(q, [], [], [], [], [], [], Log(multiset{}, multiset{}, multiset{}, multiset{}))
  }

  datatype Action =
    | PushOne(c: MotionCommand)
    | QueueReceives
    | ExecutorReceives
    | Send(i: nat, now: int)
    | TimeOut(i: nat, now: int)
    | StopWaiting(i: nat)
    | Begin(i: nat, now: int)
    | RunOnDevice(i: nat, devices: Devices, err: Option<string>)
    | Report(i: nat, now: int)
    | QueueTakesCompletion
    | ExecutorTakesCompletion
    | Clean(i: nat)
    | RemoveTask(task: string)
    | ClearAll

  // The steps that change the status of a command.
  predicate IsMark(act: Action) { act.Send? || act.Begin? || act.TimeOut? || act.Report? }

  function Drop<T>(s: seq<T>, i: nat): seq<T>
    requires i < |s|
  {
    s[..i] + s[i + 1..]
  }

  predicate Enabled(s: System, act: Action) {
    match act
    case PushOne(c) => true
    case QueueReceives => s.q.sendChan != []
    case ExecutorReceives => s.q.sendChan != []
    case Send(i, now) => i < |s.toSend|
    case TimeOut(i, now) => i < |s.waiting|
    case StopWaiting(i) => i < |s.waiting|
    case Begin(i, now) => i < |s.toStart|
    case RunOnDevice(i, devices, err) => i < |s.toRun|
    case Report(i, now) => i < |s.toReport|
    case QueueTakesCompletion => s.q.completeChan != []
    case ExecutorTakesCompletion => s.q.completeChan != []
    case Clean(i) => i < |s.toClean|
    case RemoveTask(task) => true
    case ClearAll => true
  }

  function Next(s: System, act: Action): System
    requires Enabled(s, act)
  {
    match act
    case PushOne(c) =>
      var (q, r) := Push(s.q, c);
      s.(q := q, log := if r == Queued then s.log.(pushes := s.log.pushes + multiset{c.id}) else s.log)
    case QueueReceives =>
      s.(q := s.q.(sendChan := s.q.sendChan[1..]), toSend := s.toSend + [s.q.sendChan[0]])
    case ExecutorReceives =>
      s.(q := s.q.(sendChan := s.q.sendChan[1..]), toStart := s.toStart + [s.q.sendChan[0]])
    case Send(i, now) =>
      var item := s.toSend[i];
      var (q, ok) := MarkSent(s.q, item.command.id, now);
      if ok then s.(q := q, toSend := Drop(s.toSend, i), waiting := s.waiting + [item],
                    log := s.log.(sents := s.log.sents + multiset{item.command.id}))
      else s.(toSend := Drop(s.toSend, i))
    case TimeOut(i, now) =>
      s.(q := MarkCompleted(s.q, s.waiting[i].command.id, Some("command timeout"), now).0, waiting := Drop(s.waiting, i))
    case StopWaiting(i) =>
      s.(waiting := Drop(s.waiting, i))
    case Begin(i, now) =>
      var item := s.toStart[i];
      var (q, ok) := MarkStarted(s.q, item.command.id, now);
      if ok then s.(q := q, toStart := Drop(s.toStart, i), toRun := s.toRun + [item],
                    log := s.log.(starts := s.log.starts + multiset{item.command.id}))
      else s.(toStart := Drop(s.toStart, i))
    case RunOnDevice(i, devices, err) =>
      var item := s.toRun[i];
      if Reachable(devices, item.command.deviceId) then s.(toRun := Drop(s.toRun, i), toReport := s.toReport + [(item, err)],
                           log := s.log.(writes := s.log.writes + multiset{item.command.id}))
      else s.(toRun := Drop(s.toRun, i), toReport := s.toReport + [(item, Some(DeviceProblem(devices, item.command.deviceId)))])
    case Report(i, now) =>
      var (item, err) := s.toReport[i];
      s.(q := MarkCompleted(s.q, item.command.id, err, now).0, toReport := Drop(s.toReport, i))
    case QueueTakesCompletion =>
      s.(q := s.q.(completeChan := s.q.completeChan[1..]), toClean := s.toClean + [s.q.completeChan[0]])
    case ExecutorTakesCompletion =>
      s.(q := s.q.(completeChan := s.q.completeChan[1..]))
    case Clean(i) =>
      s.(q := Cleanup(s.q, s.toClean[i]), toClean := Drop(s.toClean, i))
    case RemoveTask(task) =>
      s.(q := RemoveByTaskId(s.q, task))
    case ClearAll =>
      s.(q := Clear(s.q).0)
  }

  predicate IsRun(s: System, acts: seq<Action>)
    decreases acts
  {
    acts == [] || (Enabled(s, acts[0]) && IsRun(Next(s, acts[0]), acts[1..]))
  }

  function After(s: System, acts: seq<Action>): System
    requires IsRun(s, acts)
    decreases acts
  {
    if acts == [] then s else After(Next(s, acts[0]), acts[1..])
  }

  // ---------------------------------------------------------------- counting

  function Count(items: seq<Item>, id: string): nat {
    if items == [] then 0 else (if items[0].command.id == id then 1 else 0) + Count(items[1..], id)
  }

  lemma {:induction false} CountAppend(a: seq<Item>, b: seq<Item>, id: string)
    ensures Count(a + b, id) == Count(a, id) + Count(b, id)
    decreases a
  {
    if a == [] {
      assert a + b == b;
    } else {
      assert (a + b)[1..] == a[1..] + b;
      CountAppend(a[1..], b, id);
    }
  }

  lemma CountOne(item: Item, id: string)
    ensures Count([item], id) == if item.command.id == id then 1 else 0
  {
    assert [item][1..] == [];
  }

  lemma CountDrop(items: seq<Item>, i: nat, id: string)
    requires i < |items|
    ensures Count(items, id) == Count(Drop(items, i), id) + Count([items[i]], id)
  {
    assert items == items[..i] + ([items[i]] + items[i + 1..]);
    CountAppend(items[..i], [items[i]] + items[i + 1..], id);
    CountAppend([items[i]], items[i + 1..], id);
    CountAppend(items[..i], items[i + 1..], id);
  }

  function IsSent(q: Queue, id: string): nat {
    if id in q.commands && q.commands[id].status == Sent then 1 else 0
  }

  // One item, one receiver: what was pushed covers what is underway to either reader and what came of it.
  ghost predicate Counted(s: System, id: string) {
    && Count(s.q.sendChan, id) + Count(s.toSend, id) + s.log.sents[id] + Count(s.toStart, id) + s.log.starts[id] <= s.log.pushes[id]
    && s.log.starts[id] + IsSent(s.q, id) <= s.log.sents[id]
    && s.log.writes[id] + Count(s.toRun, id) <= s.log.starts[id]
  }

  lemma CountedPush(s: System, c: MotionCommand, id: string)
    requires Counted(s, id)
    ensures Counted(Next(s, PushOne(c)), id)
  {
    hide Count, Drop;
    CountAppend(s.q.sendChan, [ItemOf(NewEntry(c))], id);
    CountOne(ItemOf(NewEntry(c)), id);
  }

  lemma CountedReceive(s: System, act: Action, id: string)
    requires act == QueueReceives || act == ExecutorReceives
    requires Counted(s, id) && Enabled(s, act)
    ensures Counted(Next(s, act), id)
  {
    CountAppend(s.toSend, [s.q.sendChan[0]], id);
    CountAppend(s.toStart, [s.q.sendChan[0]], id);
    CountOne(s.q.sendChan[0], id);
  }

  lemma CountedSend(s: System, i: nat, now: int, id: string)
    requires Counted(s, id) && i < |s.toSend|
    ensures Counted(Next(s, Send(i, now)), id)
  {
    hide Count, Drop;
    CountDrop(s.toSend, i, id);
    CountOne(s.toSend[i], id);
  }

  lemma CountedBegin(s: System, i: nat, now: int, id: string)
    requires Counted(s, id) && i < |s.toStart|
    ensures Counted(Next(s, Begin(i, now)), id)
  {
    hide Count, Drop;
    CountDrop(s.toStart, i, id);
    CountAppend(s.toRun, [s.toStart[i]], id);
    CountOne(s.toStart[i], id);
  }

  lemma CountedRunOnDevice(s: System, act: Action, id: string)
    requires Counted(s, id) && act.RunOnDevice? && Enabled(s, act)
    ensures Counted(Next(s, act), id)
  {
    hide Count, Drop;
    CountDrop(s.toRun, act.i, id);
    CountOne(s.toRun[act.i], id);
  }

  lemma CountedFinish(s: System, act: Action, id: string)
    requires act.TimeOut? || act.StopWaiting? || act.Report? || act.QueueTakesCompletion? || act.ExecutorTakesCompletion?
    requires Counted(s, id) && Enabled(s, act)
    ensures Counted(Next(s, act), id)
  {
    hide Count, Drop;
  }

  lemma CountedRemove(s: System, act: Action, id: string)
    requires act.Clean? || act.RemoveTask? || act.ClearAll?
    requires Counted(s, id) && Enabled(s, act)
    ensures Counted(Next(s, act), id)
  {
    hide Count, Drop;
  }

  lemma CountedStep(s: System, act: Action, id: string)
    requires Counted(s, id) && Enabled(s, act)
    ensures Counted(Next(s, act), id)
  {
    hide Counted, Next;
    match act
    case PushOne(c) => CountedPush(s, c, id);
    case QueueReceives => CountedReceive(s, act, id);
    case ExecutorReceives => CountedReceive(s, act, id);
    case Send(i, now) => CountedSend(s, i, now, id);
    case Begin(i, now) => CountedBegin(s, i, now, id);
    case RunOnDevice(i, devices, err) => CountedRunOnDevice(s, act, id);
    case Clean(i) => CountedRemove(s, act, id);
    case RemoveTask(task) => CountedRemove(s, act, id);
    case ClearAll => CountedRemove(s, act, id);
    case _ => CountedFinish(s, act, id);
  }

  lemma {:induction false} CountedRun(s: System, acts: seq<Action>, id: string)
    requires Counted(s, id) && IsRun(s, acts)
    ensures Counted(After(s, acts), id)
    decreases acts
  {
    if acts != [] {
      CountedStep(s, acts[0], id);
      CountedRun(Next(s, acts[0]), acts[1..], id);
    }
  }

  // ---------------------------------------------------------------- what is written, and where

  // The step writes a command of this ID to its device, which is registered and connected.
  predicate Writes(s: System, act: Action, id: string)
    requires Enabled(s, act)
  {
    act.RunOnDevice?
    && var c := s.toRun[act.i].command; c.id == id && c.deviceId in act.devices && act.devices[c.deviceId]
  }

  function DeviceWrites(s: System, acts: seq<Action>, id: string): nat
    requires IsRun(s, acts)
    decreases acts
  {
    if acts == [] then 0
    else (if Writes(s, acts[0], id) then 1 else 0) + DeviceWrites(Next(s, acts[0]), acts[1..], id)
  }

  lemma WritesStep(s: System, act: Action, id: string)
    requires Enabled(s, act)
    ensures Next(s, act).log.writes[id] == s.log.writes[id] + if Writes(s, act, id) then 1 else 0
  {
    hide Push, MarkSent, MarkStarted, MarkCompleted, Cleanup, RemoveByTaskId, Clear, DeviceProblem, Drop;
  }

  /** Over every run, what counts as written are just the steps that have their device registered and connected. */
  lemma {:induction false} WrittenToConnected(s: System, acts: seq<Action>, id: string)
    requires IsRun(s, acts)
    ensures After(s, acts).log.writes[id] == s.log.writes[id] + DeviceWrites(s, acts, id)
    decreases acts
  {
    hide Next, Writes, Enabled;
    if acts != [] {
      WritesStep(s, acts[0], id);
      WrittenToConnected(Next(s, acts[0]), acts[1..], id);
    }
  }

  /** A command that was started on a device which is absent or not connected is not written; reporting it fails its entry, if that is still there, for the reason that applies. Otherwise it is reported with the device's answer. */
  lemma RunThenReport(s: System, i: nat, devices: Devices, err: Option<string>, now: int)
    requires i < |s.toRun|
    ensures var c, s1 := s.toRun[i].command, Next(s, RunOnDevice(i, devices, err));
            var e := if c.deviceId !in devices then Some("device " + c.deviceId + " not found")
                     else if !devices[c.deviceId] then Some("device " + c.deviceId + " is not connected")
                     else err;
            && s1.toReport == s.toReport + [(s.toRun[i], e)] && s1.q == s.q
            && (c.deviceId !in devices || !devices[c.deviceId] ==> s1.log == s.log)
            && var s2 := Next(s1, Report(|s.toReport|, now));
               && s2.q.commands.Keys == s.q.commands.Keys
               && (c.id in s.q.commands ==>
                     && s2.q.commands[c.id].completedAt == Some(now)
                     && s2.q.commands[c.id].status == (if e.Some? then Failed else Completed)
                     && (e.Some? ==> s2.q.commands[c.id].error == e))
  {
  }

  // A queue nobody has used yet.
  ghost predicate Unused(q: Queue) {
    q.commands == map[] && q.taskCommands == map[] && q.sendChan == [] && q.completeChan == []
  }

  /** Over every run, for every ID, reused or not: writes <= starts <= sents, sents and starts together at most the pushes, so at least two pushes per write. */
  lemma WritesAreBounded(q: Queue, acts: seq<Action>, id: string)
    requires Unused(q) && IsRun(Start(q), acts)
    ensures var log := After(Start(q), acts).log;
            && log.writes[id] <= log.starts[id] <= log.sents[id]
            && log.sents[id] + log.starts[id] <= log.pushes[id]
            && 2 * log.writes[id] <= log.pushes[id]
  {
    CountedRun(Start(q), acts, id);
  }

  /** A command whose ID is pushed once is never written to a device, in any run. */
  lemma PushedOnceNeverWritten(q: Queue, acts: seq<Action>, id: string)
    requires Unused(q) && IsRun(Start(q), acts)
    requires After(Start(q), acts).log.pushes[id] <= 1
    ensures After(Start(q), acts).log.writes[id] == 0
  {
    WritesAreBounded(q, acts, id);
  }

  lemma {:induction false} Extend(s: System, acts: seq<Action>, act: Action)
    requires IsRun(s, acts) && Enabled(After(s, acts), act)
    ensures IsRun(s, acts + [act]) && After(s, acts + [act]) == Next(After(s, acts), act)
    decreases acts
  {
    if acts == [] {
      assert (acts + [act])[1..] == [];
    } else {
      assert (acts + [act])[1..] == acts[1..] + [act];
      Extend(Next(s, acts[0]), acts[1..], act);
    }
  }

  lemma {:induction false} RunAppend(s: System, a: seq<Action>, b: seq<Action>)
    requires IsRun(s, a) && IsRun(After(s, a), b)
    ensures IsRun(s, a + b) && After(s, a + b) == After(After(s, a), b)
    decreases a
  {
    hide Next, Enabled;
    if a == [] {
      assert a + b == b;
    } else {
      assert (a + b)[0] == a[0] && (a + b)[1..] == a[1..] + b;
      RunAppend(Next(s, a[0]), a[1..], b);
    }
  }

  // ---------------------------------------------------------------- the bound is met

  // Nothing is in the queue or on its way to a device; what waits or is to be reported does not matter.
  predicate Ready(s: System) {
    && s.q.running && s.q.maxSize >= 1 && s.q.commands == map[] && s.q.sendChan == []
    && s.toSend == s.toStart == s.toRun == []
  }

  // One command is received by the queue and its entry removed; a second one of its ID goes to the executor, and is sent in the first one's name.
  function PushAndRemove(c: MotionCommand): seq<Action> {
    [] + [PushOne(c)] + [QueueReceives] + [RemoveTask(ExtractTaskId(c.id))]
  }

  function TwiceThenStart(c: MotionCommand, d: MotionCommand): seq<Action> {
    PushAndRemove(c) + [PushOne(d)] + [ExecutorReceives] + [Send(0, 0)] + [Begin(0, 1)]
  }

  function TwiceThenWrite(c: MotionCommand, d: MotionCommand): seq<Action> {
    TwiceThenStart(c, d) + [RunOnDevice(0, map[d.deviceId := true], None)]
  }

  lemma AfterRemoval(s0: System, c: MotionCommand) returns (s: System)
    requires Ready(s0)
    ensures IsRun(s0, PushAndRemove(c)) && s == After(s0, PushAndRemove(c))
    ensures Ready(s.(toSend := [])) && s.toSend == [ItemOf(NewEntry(c))]
    ensures s.waiting == s0.waiting && s.toReport == s0.toReport
    ensures s.log.pushes == s0.log.pushes + multiset{c.id} && s.log.writes == s0.log.writes
  {
    assert IsRun(s0, []) && After(s0, []) == s0;
    hide IsRun, After, ExtractTaskId;
    Extend(s0, [], PushOne(c));
    var s1 := Next(s0, PushOne(c));
    assert s1.q.commands == map[c.id := NewEntry(c)] && c.id in ListOf(s1.q.taskCommands, ExtractTaskId(c.id));
    Extend(s0, [] + [PushOne(c)], QueueReceives);
    var s2 := Next(s1, QueueReceives);
    Extend(s0, [] + [PushOne(c)] + [QueueReceives], RemoveTask(ExtractTaskId(c.id)));
    s := Next(s2, RemoveTask(ExtractTaskId(c.id)));
    assert s.q.commands == map[];
  }

  // The removed command is not sent any more: the push comes to nothing.
  lemma IdlePush(s0: System, c: MotionCommand) returns (acts: seq<Action>)
    requires Ready(s0)
    ensures IsRun(s0, acts) && Ready(After(s0, acts))
    ensures After(s0, acts).log.pushes == s0.log.pushes + multiset{c.id} && After(s0, acts).log.writes == s0.log.writes
  {
    var s := AfterRemoval(s0, c);
    hide IsRun, After, PushAndRemove;
    Extend(s0, PushAndRemove(c), Send(0, 0));
    acts := PushAndRemove(c) + [Send(0, 0)];
  }

  lemma AfterTwoPushes(s0: System, c: MotionCommand, d: MotionCommand) returns (s: System)
    requires Ready(s0) && c.id == d.id
    ensures var acts := PushAndRemove(c) + [PushOne(d)];
            IsRun(s0, acts) && s == After(s0, acts)
    ensures s.q.running && s.q.maxSize >= 1 && s.q.sendChan == [ItemOf(NewEntry(d))] && s.toSend == [ItemOf(NewEntry(c))]
    ensures s.q.commands == map[c.id := NewEntry(d)] && c.id in ListOf(s.q.taskCommands, ExtractTaskId(c.id))
    ensures s.toStart == s.toRun == [] && s.waiting == s0.waiting && s.toReport == s0.toReport
    ensures s.log.pushes == s0.log.pushes + multiset{c.id, c.id} && s.log.writes == s0.log.writes
  {
    var s3 := AfterRemoval(s0, c);
    hide IsRun, After, ExtractTaskId, PushAndRemove;
    Extend(s0, PushAndRemove(c), PushOne(d));
    s := Next(s3, PushOne(d));
  }

  lemma AfterStart(s0: System, c: MotionCommand, d: MotionCommand) returns (s: System)
    requires Ready(s0) && c.id == d.id
    ensures IsRun(s0, TwiceThenStart(c, d)) && s == After(s0, TwiceThenStart(c, d))
    ensures s.q.running && s.q.maxSize >= 1 && s.q.sendChan == [] && s.toSend == s.toStart == [] && s.toRun == [ItemOf(NewEntry(d))]
    ensures s.q.commands.Keys == {c.id} && c.id in ListOf(s.q.taskCommands, ExtractTaskId(c.id))
    ensures s.waiting == s0.waiting + [ItemOf(NewEntry(c))] && s.toReport == s0.toReport
    ensures s.log.pushes == s0.log.pushes + multiset{c.id, c.id} && s.log.writes == s0.log.writes
  {
    var s1 := AfterTwoPushes(s0, c, d);
    hide IsRun, After, PushAndRemove, ExtractTaskId;
    var acts := PushAndRemove(c) + [PushOne(d)];
    Extend(s0, acts, ExecutorReceives);
    acts := acts + [ExecutorReceives];
    Extend(s0, acts, Send(0, 0));
    acts := acts + [Send(0, 0)];
    Extend(s0, acts, Begin(0, 1));
    s := After(s0, TwiceThenStart(c, d));
  }

  lemma AfterWrite(s0: System, c: MotionCommand, d: MotionCommand) returns (s: System)
    requires Ready(s0) && c.id == d.id
    ensures IsRun(s0, TwiceThenWrite(c, d)) && s == After(s0, TwiceThenWrite(c, d))
    ensures s.q.running && s.q.maxSize >= 1 && s.q.sendChan == [] && s.toSend == s.toStart == s.toRun == []
    ensures s.q.commands.Keys == {c.id} && c.id in ListOf(s.q.taskCommands, ExtractTaskId(c.id))
    ensures s.waiting == s0.waiting + [ItemOf(NewEntry(c))] && s.toReport == s0.toReport + [(ItemOf(NewEntry(d)), None)]
    ensures s.log.pushes == s0.log.pushes + multiset{c.id, c.id} && s.log.writes == s0.log.writes + multiset{c.id}
  {
    var s1 := AfterStart(s0, c, d);
    hide IsRun, After, TwiceThenStart, ExtractTaskId, DeviceProblem;
    var write := RunOnDevice(0, map[d.deviceId := true], None);
    Extend(s0, TwiceThenStart(c, d), write);
    s := Next(s1, write);
  }

  // Two pushes, one write, and the entry removed: the queue is as before.
  lemma WriteCycle(s0: System, c: MotionCommand) returns (acts: seq<Action>)
    requires Ready(s0)
    ensures IsRun(s0, acts) && Ready(After(s0, acts))
    ensures After(s0, acts).log.pushes == s0.log.pushes + multiset{c.id, c.id}
    ensures After(s0, acts).log.writes == s0.log.writes + multiset{c.id}
  {
    var s := AfterWrite(s0, c, c);
    hide IsRun, After, TwiceThenWrite, ExtractTaskId;
    acts := TwiceThenWrite(c, c) + [RemoveTask(ExtractTaskId(c.id))];
    Extend(s0, TwiceThenWrite(c, c), RemoveTask(ExtractTaskId(c.id)));
    assert Next(s, RemoveTask(ExtractTaskId(c.id))).q.commands == map[];
  }

  // Write after write, and then idle pushes.
  lemma {:induction false} Cycles(s: System, c: MotionCommand, pushes: nat, writes: nat) returns (acts: seq<Action>)
    requires Ready(s) && 2 * writes <= pushes
    ensures IsRun(s, acts)
    ensures After(s, acts).log.pushes[c.id] == s.log.pushes[c.id] + pushes && After(s, acts).log.writes[c.id] == s.log.writes[c.id] + writes
    decreases pushes
  {
    if pushes == 0 {
      acts := [];
    } else {
      var first: seq<Action>;
      if writes > 0 { first := WriteCycle(s, c); } else { first := IdlePush(s, c); }
      var n := if writes > 0 then 1 else 0;
      hide IsRun, After, Ready;
      var rest := Cycles(After(s, first), c, pushes - 1 - n, writes - n);
      RunAppend(s, first, rest);
      acts := first + rest;
    }
  }

  lemma UnusedIsReady(q: Queue)
    requires Unused(q) && q.running && q.maxSize >= 1
    ensures Ready(Start(q))
  {
  }

  /** The bound is exact: from every unused running queue with room for one command, some run pushes an ID so often and writes it so often exactly when there are at least two pushes per write. */
  lemma BoundIsExact(q: Queue, id: string, pushes: nat, writes: nat)
    requires Unused(q) && q.running && q.maxSize >= 1
    ensures (exists acts :: IsRun(Start(q), acts) && After(Start(q), acts).log.pushes[id] == pushes && After(Start(q), acts).log.writes[id] == writes)
       <==> 2 * writes <= pushes
  {
    if 2 * writes <= pushes {
      UnusedIsReady(q);
      hide IsRun, After, Ready;
      var acts := Cycles(Start(q), MotionCommand(id, "", "", ORIGIN, STILL, STILL, NoData, 0), pushes, writes);
    }
    if acts :| IsRun(Start(q), acts) && After(Start(q), acts).log.pushes[id] == pushes && After(Start(q), acts).log.writes[id] == writes {
      WritesAreBounded(q, acts, id);
    }
  }

  // ---------------------------------------------------------------- when completed stays completed

  // The step turns a completed command into a failed one.
  ghost predicate FailsCompleted(s: System, act: Action, id: string)
    requires Enabled(s, act)
  {
    && id in s.q.commands && s.q.commands[id].status == Completed
    && id in Next(s, act).q.commands && Next(s, act).q.commands[id].status == Failed
  }

  /** A reported command is completed, and the timeout of the other copy of its ID then fails it. */
  lemma LateTimeoutFails(q: Queue, c: MotionCommand, d: MotionCommand) returns (acts: seq<Action>)
    requires Unused(q) && q.running && q.maxSize >= 1 && c.id == d.id
    ensures IsRun(Start(q), acts) && After(Start(q), acts).log.pushes[c.id] == 2
    ensures Enabled(After(Start(q), acts), TimeOut(0, 3)) && FailsCompleted(After(Start(q), acts), TimeOut(0, 3), c.id)
    ensures Next(After(Start(q), acts), TimeOut(0, 3)).q.commands[c.id].error == Some("command timeout")
  {
    UnusedIsReady(q);
    var s := AfterWrite(Start(q), c, d);
    hide IsRun, After, TwiceThenWrite, ExtractTaskId;
    Extend(Start(q), TwiceThenWrite(c, d), Report(0, 2));
    acts := TwiceThenWrite(c, d) + [Report(0, 2)];
  }

  // A completed entry, and what runs or is to be reported, has been started.
  ghost predicate StartedFirst(s: System, id: string) {
    && (id in s.q.commands && s.q.commands[id].status == Completed ==> s.log.starts[id] > 0)
    && (forall i :: 0 <= i < |s.toRun| && s.toRun[i].command.id == id ==> s.log.starts[id] > 0)
    && (forall i :: 0 <= i < |s.toReport| && s.toReport[i].0.command.id == id ==> s.log.starts[id] > 0)
  }

  lemma StartedFirstWork(s: System, act: Action, id: string)
    requires act.Begin? || act.RunOnDevice? || act.Report?
    requires StartedFirst(s, id) && Enabled(s, act)
    ensures StartedFirst(Next(s, act), id)
  {
    hide DeviceProblem, Reachable;
  }

  lemma StartedFirstRest(s: System, act: Action, id: string)
    requires !(act.Begin? || act.RunOnDevice? || act.Report?)
    requires StartedFirst(s, id) && Enabled(s, act)
    ensures StartedFirst(Next(s, act), id)
  {
    hide ExtractTaskId, WithoutFirst, Unlisted, Members;
  }

  lemma {:induction false} StartedFirstRun(s: System, acts: seq<Action>, id: string)
    requires StartedFirst(s, id) && IsRun(s, acts)
    ensures StartedFirst(After(s, acts), id)
    decreases acts
  {
    hide StartedFirst, Next, Enabled;
    if acts != [] {
      if acts[0].Begin? || acts[0].RunOnDevice? || acts[0].Report? {
        StartedFirstWork(s, acts[0], id);
      } else {
        StartedFirstRest(s, acts[0], id);
      }
      StartedFirstRun(Next(s, acts[0]), acts[1..], id);
    }
  }

  // A queue that is not running or has no room accepts nothing, in any run.
  lemma {:induction false} NothingPushed(s: System, acts: seq<Action>)
    requires IsRun(s, acts) && (!s.q.running || s.q.maxSize <= 0)
    ensures After(s, acts).log.pushes == s.log.pushes
    decreases acts
  {
    if acts != [] {
      NothingPushedStep(s, acts[0]);
      NothingPushed(Next(s, acts[0]), acts[1..]);
    }
  }

  lemma NothingPushedStep(s: System, act: Action)
    requires Enabled(s, act) && (!s.q.running || s.q.maxSize <= 0)
    ensures Next(s, act).log.pushes == s.log.pushes
    ensures Next(s, act).q.running == s.q.running && Next(s, act).q.maxSize == s.q.maxSize
  {
    hide ExtractTaskId, Unlisted, Members, DeviceProblem, Reachable;
  }

  /**
   Completed stays completed, in every run that pushes an ID at most n times, exactly when n is
   at most 1 or the queue takes no pushes at all: with one push nothing is ever completed.
   */
  lemma CompletedStaysIff(q: Queue, id: string, n: nat)
    requires Unused(q)
    ensures (forall acts, act :: IsRun(Start(q), acts) && Enabled(After(Start(q), acts), act)
                                 && After(Start(q), acts).log.pushes[id] <= n
                                 ==> !FailsCompleted(After(Start(q), acts), act, id))
       <==> n <= 1 || !q.running || q.maxSize <= 0
  {
    if n <= 1 || !q.running || q.maxSize <= 0 {
      forall acts, act | IsRun(Start(q), acts) && Enabled(After(Start(q), acts), act) && After(Start(q), acts).log.pushes[id] <= n
        ensures !FailsCompleted(After(Start(q), acts), act, id)
      {
        if !q.running || q.maxSize <= 0 { NothingPushed(Start(q), acts); }
        WritesAreBounded(q, acts, id);
        StartedFirstRun(Start(q), acts, id);
        hide IsRun, After, Next, Enabled;
      }
    } else {
      hide IsRun, After, FailsCompleted, Enabled, Start;
      var c := MotionCommand(id, "", "", ORIGIN, STILL, STILL, NoData, 0);
      var acts := LateTimeoutFails(q, c, c);
    }
  }

  // ---------------------------------------------------------------- the index over all runs

  // Every command stands under its own ID, with the task that ID names; so do all items underway.
  ghost predicate Labelled(item: Item) {
    item.taskId == ExtractTaskId(item.command.id)
  }

  ghost predicate QueueLabelled(q: Queue) {
    && (forall id :: id in q.commands ==> q.commands[id].command.id == id && q.commands[id].taskId == ExtractTaskId(id))
    && (forall i :: 0 <= i < |q.completeChan| ==> Labelled(q.completeChan[i]))
  }

  ghost predicate WellLabelled(s: System) {
    QueueLabelled(s.q) && forall i :: 0 <= i < |s.toClean| ==> Labelled(s.toClean[i])
  }

  lemma MarksKeepLabels(q: Queue, id: string, now: int)
    requires QueueLabelled(q)
    ensures QueueLabelled(MarkSent(q, id, now).0)
    ensures QueueLabelled(MarkStarted(q, id, now).0)
  {
  }

  lemma CompletionKeepsLabels(q: Queue, id: string, err: Option<string>, now: int)
    requires QueueLabelled(q)
    ensures QueueLabelled(MarkCompleted(q, id, err, now).0)
  {
    if id in q.commands {
      var e := Finished(q.commands[id], err, now);
      assert ItemOf(e) == ItemOf(q.commands[id]);
      assert Labelled(ItemOf(e));
    }
  }

  lemma WellLabelledMark(s: System, act: Action)
    requires IsMark(act)
    requires WellLabelled(s) && Enabled(s, act)
    ensures WellLabelled(Next(s, act))
  {
    hide QueueLabelled, Labelled;
    match act
    case Send(i, now) => MarksKeepLabels(s.q, s.toSend[i].command.id, now);
    case Begin(i, now) => MarksKeepLabels(s.q, s.toStart[i].command.id, now);
    case TimeOut(i, now) => CompletionKeepsLabels(s.q, s.waiting[i].command.id, Some("command timeout"), now);
    case Report(i, now) => CompletionKeepsLabels(s.q, s.toReport[i].0.command.id, s.toReport[i].1, now);
  }

  lemma WellLabelledPush(q: Queue, c: MotionCommand)
    requires QueueLabelled(q)
    ensures QueueLabelled(Push(q, c).0)
  {
    hide ExtractTaskId, WithoutFirst;
  }

  lemma WellLabelledClean(q: Queue, item: Item)
    requires QueueLabelled(q)
    ensures QueueLabelled(Cleanup(q, item))
  {
    hide ExtractTaskId, WithoutFirst, Unlisted, Members;
  }

  lemma WellLabelledRemove(q: Queue, task: string)
    requires QueueLabelled(q)
    ensures QueueLabelled(RemoveByTaskId(q, task)) && QueueLabelled(Clear(q).0)
  {
    hide ExtractTaskId, WithoutFirst, Unlisted, Members;
  }

  lemma WellLabelledTake(s: System)
    requires WellLabelled(s) && s.q.completeChan != []
    ensures WellLabelled(Next(s, QueueTakesCompletion)) && WellLabelled(Next(s, ExecutorTakesCompletion))
  {
    hide ExtractTaskId;
  }

  lemma WellLabelledMove(s: System, act: Action)
    requires !IsMark(act)
    requires WellLabelled(s) && Enabled(s, act)
    ensures WellLabelled(Next(s, act))
  {
    hide QueueLabelled, Labelled, Push, Cleanup, RemoveByTaskId, Clear, DeviceProblem, Reachable;
    match act
    case PushOne(c) => WellLabelledPush(s.q, c);
    case QueueTakesCompletion => WellLabelledTake(s);
    case ExecutorTakesCompletion => WellLabelledTake(s);
    case Clean(i) => WellLabelledClean(s.q, s.toClean[i]);
    case RemoveTask(task) => WellLabelledRemove(s.q, task);
    case ClearAll => WellLabelledRemove(s.q, "");
    case QueueReceives => WellLabelledReceive(s.q);
    case ExecutorReceives => WellLabelledReceive(s.q);
    case _ =>
  }

  // Labels do not depend on what waits to be sent.
  lemma WellLabelledReceive(q: Queue)
    requires QueueLabelled(q) && q.sendChan != []
    ensures QueueLabelled(q.(sendChan := q.sendChan[1..]))
  {
  }

  lemma WellLabelledStep(s: System, act: Action)
    requires WellLabelled(s) && Enabled(s, act)
    ensures WellLabelled(Next(s, act))
  {
    hide WellLabelled, Next;
    if IsMark(act) {
      WellLabelledMark(s, act);
    } else {
      WellLabelledMove(s, act);
    }
  }

  // What a step does to the list of live commands in push order.
  function Tracked(s: System, act: Action, l: seq<MotionCommand>): seq<MotionCommand>
    requires Enabled(s, act)
  {
    match act
    case PushOne(c) => if Push(s.q, c).1 == Queued then l + [c] else l
    case Clean(i) =>
      var id := s.toClean[i].command.id;
      if id in s.q.commands && Terminal(s.q.commands[id].status) then WithoutId(l, id) else l
    case RemoveTask(task) => WithoutTask(l, task)
    case ClearAll => if s.q.running then [] else l
    case _ => l
  }

  function TrackedAll(s: System, acts: seq<Action>, l: seq<MotionCommand>): seq<MotionCommand>
    requires IsRun(s, acts)
    decreases acts
  {
    if acts == [] then l else TrackedAll(Next(s, acts[0]), acts[1..], Tracked(s, acts[0], l))
  }

  // No ID is pushed while it is present.
  predicate Fresh(s: System, act: Action) {
    act.PushOne? ==> act.c.id !in s.q.commands || !s.q.running || |s.q.commands| >= s.q.maxSize
  }

  predicate FreshRun(s: System, acts: seq<Action>)
    requires IsRun(s, acts)
    decreases acts
  {
    acts == [] || (Fresh(s, acts[0]) && FreshRun(Next(s, acts[0]), acts[1..]))
  }

  lemma AgreesStep(s: System, act: Action, l: seq<MotionCommand>)
    requires Agrees(s.q, l) && WellLabelled(s) && Enabled(s, act) && Fresh(s, act)
    ensures Agrees(Next(s, act).q, Tracked(s, act, l))
  {
    hide DeviceProblem, Reachable, ExtractTaskId, MapAgrees, ListsAgree;
    match act
    case PushOne(c) =>
      if Push(s.q, c).1 == Queued { PushQueued(s.q, l, c); }
      else if Push(s.q, c).1 == ChannelFull { PushUndone(s.q, l, c); }
    case QueueReceives =>
    case ExecutorReceives =>
    case Send(i, now) =>
      MarkAgrees(s.q, l, s.toSend[i].command.id, None, now);
    case TimeOut(i, now) =>
      MarkAgrees(s.q, l, s.waiting[i].command.id, Some("command timeout"), now);
    case StopWaiting(i) =>
    case Begin(i, now) =>
      MarkAgrees(s.q, l, s.toStart[i].command.id, None, now);
    case RunOnDevice(i, devices, err) =>
    case Report(i, now) =>
      MarkAgrees(s.q, l, s.toReport[i].0.command.id, s.toReport[i].1, now);
    case QueueTakesCompletion =>
    case ExecutorTakesCompletion =>
    case Clean(i) =>
      assert Labelled(s.toClean[i]);
      CleanupAgrees(s.q, l, s.toClean[i]);
    case RemoveTask(task) =>
      RemoveAgrees(s.q, l, task);
    case ClearAll =>
      if s.q.running { ClearAgrees(s.q); }
  }

  /** Over every run that pushes no present ID, the two maps agree with one list of the live commands in push order, and looking up a task is filtering that list. */
  lemma {:induction false} IndexAgreement(s: System, acts: seq<Action>, l: seq<MotionCommand>, task: string)
    requires Agrees(s.q, l) && WellLabelled(s) && IsRun(s, acts) && FreshRun(s, acts)
    ensures var q := After(s, acts).q;
            var live := TrackedAll(s, acts, l);
            && Agrees(q, live)
            && match GetByTaskId(q, task) { case None => OfTask(live, task) == [] case Some(cs) => cs == OfTask(live, task) }
    decreases acts
  {
    if acts == [] {
      GetByTaskIdIsFilter(s.q, l, task);
    } else {
      AgreesStep(s, acts[0], l);
      WellLabelledStep(s, acts[0]);
      IndexAgreement(Next(s, acts[0]), acts[1..], Tracked(s, acts[0], l), task);
    }
  }

  lemma PushSize(q: Queue, c: MotionCommand)
    requires |q.commands| <= q.maxSize
    ensures |Push(q, c).0.commands| <= q.maxSize == Push(q, c).0.maxSize
  {
    hide ExtractTaskId, WithoutFirst;
    assert q.commands[c.id := NewEntry(c)].Keys == q.commands.Keys + {c.id};
    if Push(q, c).1 == ChannelFull {
      assert Push(q, c).0.commands.Keys <= q.commands.Keys;
      SubsetSize(Push(q, c).0.commands.Keys, q.commands.Keys);
    }
  }

  // Nothing but a push adds a command.
  lemma NoNewKeys(s: System, act: Action)
    requires Enabled(s, act) && !act.PushOne?
    ensures Next(s, act).q.commands.Keys <= s.q.commands.Keys && Next(s, act).q.maxSize == s.q.maxSize
  {
    hide DeviceProblem, Reachable, Unlisted, Members;
  }

  lemma SizeStep(s: System, act: Action)
    requires Enabled(s, act) && |s.q.commands| <= s.q.maxSize
    ensures |Next(s, act).q.commands| <= Next(s, act).q.maxSize == s.q.maxSize
  {
    if act.PushOne? {
      hide Push;
      PushSize(s.q, act.c);
    } else {
      hide Next;
      NoNewKeys(s, act);
      SubsetSize(Next(s, act).q.commands.Keys, s.q.commands.Keys);
    }
  }

  lemma {:induction false} SubsetSize(a: set<string>, b: set<string>)
    requires a <= b
    ensures |a| <= |b|
    decreases a
  {
    if a != {} {
      var x :| x in a;
      SubsetSize(a - {x}, b - {x});
    }
  }

  /** The queue never holds more commands than it is meant to, whatever is pushed. */
  lemma {:induction false} SizeIsBounded(s: System, acts: seq<Action>)
    requires IsRun(s, acts) && |s.q.commands| <= s.q.maxSize
    ensures |After(s, acts).q.commands| <= s.q.maxSize
    decreases acts
  {
    if acts != [] {
      SizeStep(s, acts[0]);
      SizeIsBounded(Next(s, acts[0]), acts[1..]);
    }
  }

  // ---------------------------------------------------------------- the status machine

  function Rank(s: Status): nat {
    match s
    case Pending => 0
    case Sent => 1
    case Executing => 2
    case Completed => 3
    case Failed => 3
  }

  // The recorded times say how far an entry got.
  ghost predicate Dated(e: Entry) {
    && (e.completedAt.Some? <==> Terminal(e.status))
    && (e.startedAt.Some? ==> e.sentAt.Some?)
    && (e.status == Pending ==> e.sentAt.None?)
    && (e.status == Sent ==> e.sentAt.Some? && e.startedAt.None?)
    && (e.status == Executing ==> e.startedAt.Some?)
  }

  ghost predicate AllDated(s: System) {
    forall id :: id in s.q.commands ==> Dated(s.q.commands[id])
  }

  lemma DatedStep(s: System, act: Action)
    requires AllDated(s) && Enabled(s, act)
    ensures AllDated(Next(s, act))
  {
    hide AllDated, Next;
    if IsMark(act) { DatedMark(s, act); } else { DatedRest(s, act); }
  }

  lemma DatedMark(s: System, act: Action)
    requires IsMark(act) && AllDated(s) && Enabled(s, act)
    ensures AllDated(Next(s, act))
  {
  }

  lemma DatedRest(s: System, act: Action)
    requires !IsMark(act) && AllDated(s) && Enabled(s, act)
    ensures AllDated(Next(s, act))
  {
    hide DeviceProblem, Reachable, ExtractTaskId, WithoutFirst;
  }

  /** Over every run the times of an entry tell its status: completed is dated exactly when terminal, and what was started was sent. */
  lemma {:induction false} DatedRun(s: System, acts: seq<Action>)
    requires AllDated(s) && IsRun(s, acts)
    ensures AllDated(After(s, acts))
    decreases acts
  {
    if acts != [] {
      DatedStep(s, acts[0]);
      DatedRun(Next(s, acts[0]), acts[1..]);
    }
  }

  // The entry stays in the queue throughout, and is not replaced by a push of its ID.
  predicate Stays(s: System, acts: seq<Action>, id: string)
    requires IsRun(s, acts)
    decreases acts
  {
    && id in s.q.commands
    && (acts == [] || (!(acts[0].PushOne? && acts[0].c.id == id) && Stays(Next(s, acts[0]), acts[1..], id)))
  }

  lemma RankStep(s: System, act: Action, id: string)
    requires Enabled(s, act) && id in s.q.commands && id in Next(s, act).q.commands
    requires !(act.PushOne? && act.c.id == id)
    ensures Rank(s.q.commands[id].status) <= Rank(Next(s, act).q.commands[id].status)
    ensures Terminal(s.q.commands[id].status) ==> Terminal(Next(s, act).q.commands[id].status)
  {
    hide Next, Rank, Terminal;
    if IsMark(act) { MarksRaise(s, act, id); } else { OnlyMarksChange(s, act, id); }
  }

  lemma MarksRaise(s: System, act: Action, id: string)
    requires Enabled(s, act) && IsMark(act) && id in s.q.commands && id in Next(s, act).q.commands
    ensures Rank(s.q.commands[id].status) <= Rank(Next(s, act).q.commands[id].status)
    ensures Terminal(s.q.commands[id].status) ==> Terminal(Next(s, act).q.commands[id].status)
  {
    hide Drop;
  }

  lemma OnlyMarksChange(s: System, act: Action, id: string)
    requires Enabled(s, act) && !IsMark(act) && id in s.q.commands && id in Next(s, act).q.commands
    requires !(act.PushOne? && act.c.id == id)
    ensures Next(s, act).q.commands[id] == s.q.commands[id]
  {
    hide DeviceProblem, Reachable, ExtractTaskId, WithoutFirst;
  }

  /** While an entry stays in the queue its rank never falls: what is sent is not pending again, and what is finished stays finished, though a late timeout may fail a completed command. */
  lemma {:induction false} RankRun(s: System, acts: seq<Action>, id: string)
    requires IsRun(s, acts) && Stays(s, acts, id)
    ensures id in After(s, acts).q.commands
    ensures Rank(s.q.commands[id].status) <= Rank(After(s, acts).q.commands[id].status)
    ensures Terminal(s.q.commands[id].status) ==> Terminal(After(s, acts).q.commands[id].status)
    decreases acts
  {
    if acts != [] {
      RankStep(s, acts[0], id);
      RankRun(Next(s, acts[0]), acts[1..], id);
    }
  }

  /** From an unused queue, over every run: each entry's dates tell its status. */
  lemma DatedFromStart(q: Queue, acts: seq<Action>)
    requires Unused(q) && IsRun(Start(q), acts)
    ensures AllDated(After(Start(q), acts))
  {
    DatedRun(Start(q), acts);
  }
}
