/**
 The execution queue as the program keeps it: a map of command records that are changed in
 place, the lists of command IDs per task, and two bounded channels. Every method is proved
 to do to the queue's value what the function of the same name in QueueModel does.
 */
module ExecutionQueues {
  import opened Wrappers
  import opened Motion
  import opened CommandIds
  import M = QueueModel

  class QueuedCommand {
    const command: MotionCommand
    const taskId: string
    var status: M.Status
    var sentAt: Option<int>
    var startedAt: Option<int>
    var completedAt: Option<int>
    var error: Option<string>

    constructor (command: MotionCommand, taskId: string)
      ensures this.command == command && this.taskId == taskId
      ensures Entry() == M.Entry(command, taskId, M.Pending, None, None, None, None)
    {
      this.command, this.taskId, status := command, taskId, M.Pending;
      sentAt, startedAt, completedAt, error := None, None, None, None;
    }

    function Entry(): M.Entry
      reads this
    {
      M.Entry(command, taskId, status, sentAt, startedAt, completedAt, error)
    }
  }

  function Items(cs: seq<QueuedCommand>): seq<M.Item> {
    seq(|cs|, i requires 0 <= i < |cs| => M.Item(cs[i].command, cs[i].taskId))
  }

  lemma ItemsAppend(cs: seq<QueuedCommand>, c: QueuedCommand)
    ensures Items(cs + [c]) == Items(cs) + [M.Item(c.command, c.taskId)]
  {
  }

  /** The scan for an ID that both removals share. */
  method RemoveFirst(ids: seq<string>, id: string) returns (rest: seq<string>)
    ensures rest == M.WithoutFirst(ids, id)
  {
    for i := 0 to |ids|
      invariant id !in ids[..i]
    {
      if ids[i] == id {
        SplitAtFirst(ids, id, i);
        return ids[..i] + ids[i + 1..];
      }
      assert ids[..i + 1] == ids[..i] + [ids[i]];
    }
    assert ids[..|ids|] == ids;
    M.WithoutAbsent(ids, id);
    return ids;
  }

  lemma {:induction false} SplitAtFirst(ids: seq<string>, id: string, i: nat)
    requires i < |ids| && id !in ids[..i] && ids[i] == id
    ensures M.WithoutFirst(ids, id) == ids[..i] + ids[i + 1..]
    decreases i
  {
    if i > 0 {
      assert ids[0] == ids[..i][0];
      assert ids[..i] == [ids[0]] + ids[1..][..i - 1];
      assert ids[1..][i..] == ids[i + 1..];
      SplitAtFirst(ids[1..], id, i - 1);
    }
  }

  // The entries of a map of records.
  ghost function EntriesOf(commands: map<string, QueuedCommand>): map<string, M.Entry>
    reads set id | id in commands :: commands[id]
  {
    map id | id in commands :: commands[id].Entry()
  }

  class ExecutionQueue {
    var commands: map<string, QueuedCommand>
    var taskCommands: map<string, seq<string>>
    var sendChan: seq<QueuedCommand>
    var completeChan: seq<QueuedCommand>
    const maxSize: int
    var running: bool

    // The records in the map; they are the queue's to change.
    ghost function Records(): set<QueuedCommand>
      reads this`commands
    {
      set id | id in commands :: commands[id]
    }

    ghost predicate Valid()
      reads this`commands
    {
      forall id :: id in commands ==> commands[id].command.id == id
    }

    ghost function View(): M.Queue
      reads this, Records()
    {
      M.Queue(EntriesOf(commands), taskCommands, Items(sendChan), Items(completeChan), maxSize, running)
    }

    constructor (maxSize: int)
      ensures Valid()
      ensures View() == M.Queue(map[], map[], [], [], maxSize, false)
    {
      commands, taskCommands, sendChan, completeChan := map[], map[], [], [];
      this.maxSize, running := maxSize, false;
    }

    // The new record goes into both maps.
    method Insert(cmd: MotionCommand, taskId: string) returns (queued: QueuedCommand)
      requires Valid() && taskId == ExtractTaskId(cmd.id)
      modifies this`commands, this`taskCommands
      ensures Valid()
      ensures queued.command == cmd && queued.taskId == taskId && queued.status == M.Pending
      ensures commands == old(commands)[cmd.id := queued]
      ensures View() == M.Inserted(old(View()), cmd) && taskId in taskCommands
    {
      hide ExtractTaskId, Items;
      queued := new QueuedCommand(cmd, taskId);
      commands := commands[cmd.id := queued];
      taskCommands := taskCommands[taskId := (if taskId in taskCommands then taskCommands[taskId] else []) + [cmd.id]];
      assert EntriesOf(commands) == M.Inserted(old(View()), cmd).commands;
    }

    // The record goes again; the first mention of its ID leaves the task's list.
    method Withdraw(id: string, taskId: string)
      requires Valid() && taskId in taskCommands
      modifies this`commands, this`taskCommands
      ensures Valid() && commands == old(commands) - {id}
      ensures View() == old(View()).(commands := old(EntriesOf(commands)) - {id},
                                     taskCommands := old(taskCommands)[taskId := M.WithoutFirst(old(taskCommands)[taskId], id)])
    {
      commands := commands - {id};
      var rest := RemoveFirst(taskCommands[taskId], id);
      taskCommands := taskCommands[taskId := rest];
      assert EntriesOf(commands) == old(EntriesOf(commands)) - {id};
    }

    /** Puts a command in both maps and offers it to the channel; when the channel is full, takes it out of both again. */
    method Push(cmd: MotionCommand) returns (result: M.PushResult)
      requires Valid()
      modifies this
      ensures Valid()
      ensures (View(), result) == M.Push(old(View()), cmd)
      ensures result == if !running then M.NotRunning else if |old(commands)| >= maxSize then M.QueueFull
                        else if |old(sendChan)| >= 10 then M.ChannelFull else M.Queued
      ensures result == M.Queued ==>
                && cmd.id in commands && commands[cmd.id].command == cmd && commands[cmd.id].status == M.Pending
                && sendChan == old(sendChan) + [commands[cmd.id]]
      ensures result == M.ChannelFull ==> commands == old(commands) - {cmd.id} && sendChan == old(sendChan) && ExtractTaskId(cmd.id) in taskCommands
    {
      hide Valid, EntriesOf, ExtractTaskId, M.WithoutFirst, M.Inserted;
      if !running { return M.NotRunning; }
      SameSize();
      if |commands| >= maxSize { return M.QueueFull; }
      var taskId := ExtractTaskIdByScan(cmd.id);
      var queued := Insert(cmd, taskId);
      if |sendChan| < M.CHANNEL_SIZE {
        ItemsAppend(sendChan, queued);
        sendChan := sendChan + [queued];
        return M.Queued;
      }
      Withdraw(cmd.id, taskId);
      assert commands == old(commands) - {cmd.id};
      return M.ChannelFull;
    }

    lemma SameSize()
      ensures |commands| == |EntriesOf(commands)|
    {
      assert commands.Keys == EntriesOf(commands).Keys;
    }

    method Size() returns (n: nat)
      ensures n == |View().commands|
    {
      SameSize();
      n := |commands|;
    }

    method MarkCommandSent(id: string, now: int) returns (ok: bool)
      requires Valid()
      modifies Records()
      ensures Valid()
      ensures (View(), ok) == M.MarkSent(old(View()), id, now)
      ensures ok == (id in commands && old(View()).commands[id].status == M.Pending)
      ensures ok ==> commands[id].status == M.Sent && commands[id].sentAt == Some(now)
    {
      if id !in commands || commands[id].status != M.Pending { return false; }
      var cmd := commands[id];
      cmd.status := M.Sent;
      cmd.sentAt := Some(now);
      OneRecordChanged(id);
      return true;
    }

    // Records stand under their own IDs, so changing one leaves every other entry as it was.
    twostate lemma OneRecordChanged(id: string)
      requires Valid() && id in commands && commands == old(commands)
      requires forall k :: k in commands && commands[k] != commands[id] ==> unchanged(commands[k])
      ensures EntriesOf(commands) == old(EntriesOf(commands))[id := commands[id].Entry()]
    {
    }

    method MarkCommandStarted(id: string, now: int) returns (ok: bool)
      requires Valid()
      modifies Records()
      ensures Valid()
      ensures (View(), ok) == M.MarkStarted(old(View()), id, now)
      ensures ok == (id in commands && old(View()).commands[id].status == M.Sent)
      ensures ok ==> commands[id].status == M.Executing && commands[id].startedAt == Some(now)
    {
      if id !in commands || commands[id].status != M.Sent { return false; }
      var cmd := commands[id];
      cmd.status := M.Executing;
      cmd.startedAt := Some(now);
      OneRecordChanged(id);
      return true;
    }

    /** Finishes a command whatever its status, and reports it unless the channel is full. */
    method MarkCommandCompleted(id: string, err: Option<string>, now: int) returns (ok: bool)
      requires Valid()
      modifies this, Records()
      ensures Valid()
      ensures (View(), ok) == M.MarkCompleted(old(View()), id, err, now)
      ensures commands == old(commands) && ok == (id in commands)
      ensures ok ==> commands[id].status == (if err.Some? then M.Failed else M.Completed) && commands[id].completedAt == Some(now)
      ensures ok && err.Some? ==> commands[id].error == err
      ensures completeChan == old(completeChan) + (if ok && |old(completeChan)| < 10 then [commands[id]] else [])
    {
      if id !in commands { return false; }
      var cmd := commands[id];
      cmd.completedAt := Some(now);
      if err.Some? {
        cmd.status := M.Failed;
        cmd.error := err;
      } else {
        cmd.status := M.Completed;
      }
      OneRecordChanged(id);
      assert cmd.Entry() == M.Finished(old(EntriesOf(commands))[id], err, now);
      hide EntriesOf, Items;
      Report(cmd);
      return true;
    }

    // A full channel loses the report.
    method Report(cmd: QueuedCommand)
      modifies this`completeChan
      ensures Items(completeChan) == if |Items(old(completeChan))| < M.CHANNEL_SIZE
                                     then Items(old(completeChan)) + [M.Item(cmd.command, cmd.taskId)]
                                     else Items(old(completeChan))
      ensures completeChan == old(completeChan) + (if |old(completeChan)| < 10 then [cmd] else [])
    {
      if |completeChan| < M.CHANNEL_SIZE {
        ItemsAppend(completeChan, cmd);
        completeChan := completeChan + [cmd];
      }
    }

    // The ID leaves the list of its task, and an emptied list leaves the map.
    method Unlist(taskId: string, id: string)
      modifies this`taskCommands
      ensures taskCommands == M.Unlisted(old(taskCommands), taskId, id)
      ensures taskId in old(taskCommands) && id in old(taskCommands)[taskId] ==>
                (taskId in taskCommands <==> |old(taskCommands)[taskId]| > 1) && (taskId in taskCommands ==> taskCommands[taskId] != [])
    {
      if taskId in taskCommands {
        var ids := taskCommands[taskId];
        if id in ids {
          var rest := RemoveFirst(ids, id);
          taskCommands := if |rest| == 0 then taskCommands - {taskId} else taskCommands[taskId := rest];
        }
      }
    }

    /** Takes a finished command out of both maps; one that is not finished, or no longer there, stays as it is. */
    method CleanupCompletedCommand(cmd: QueuedCommand)
      requires Valid()
      modifies this
      ensures Valid()
      ensures View() == M.Cleanup(old(View()), M.Item(cmd.command, cmd.taskId))
      ensures var id := cmd.command.id;
              commands == if id in old(commands) && (old(commands)[id].status == M.Completed || old(commands)[id].status == M.Failed)
                          then old(commands) - {id} else old(commands)
      ensures commands != old(commands) && cmd.taskId in old(taskCommands) && old(taskCommands)[cmd.taskId] == [cmd.command.id] ==>
                cmd.taskId !in taskCommands
    {
      var id := cmd.command.id;
      if id in commands && (commands[id].status == M.Completed || commands[id].status == M.Failed) {
        commands := commands - {id};
        assert EntriesOf(commands) == old(EntriesOf(commands)) - {id};
        hide EntriesOf, Items, M.Unlisted;
        Unlist(cmd.taskId, id);
      }
    }

    /** Takes every command on a task's list out of the map, one by one, then drops the list. */
    method RemoveByTaskID(taskId: string)
      requires Valid()
      modifies this
      ensures Valid()
      ensures View() == M.RemoveByTaskId(old(View()), taskId)
      ensures taskId !in taskCommands
      ensures forall id :: id in commands <==> id in old(commands) && !(taskId in old(taskCommands) && id in old(taskCommands)[taskId])
    {
      if taskId in taskCommands {
        var ids := taskCommands[taskId];
        ghost var before := commands;
        for i := 0 to |ids|
          invariant commands == before - M.Members(ids[..i])
          invariant taskCommands == old(taskCommands) && sendChan == old(sendChan)
          invariant completeChan == old(completeChan) && running == old(running)
        {
          assert M.Members(ids[..i + 1]) == M.Members(ids[..i]) + {ids[i]};
          if ids[i] in commands { commands := commands - {ids[i]}; }
        }
        assert ids[..|ids|] == ids;
        taskCommands := taskCommands - {taskId};
      }
      assert EntriesOf(commands) == old(EntriesOf(commands)) - M.Members(M.ListOf(old(taskCommands), taskId));
    }

    /** The commands of a task, in the order of its list. */
    method GetByTaskID(taskId: string) returns (result: Option<seq<MotionCommand>>)
      requires Valid()
      ensures result == M.GetByTaskId(View(), taskId)
    {
      if taskId !in taskCommands { return None; }
      var ids := taskCommands[taskId];
      var found: seq<MotionCommand> := [];
      for i := 0 to |ids|
        invariant found + M.Lookup(EntriesOf(commands), ids[i..]) == M.Lookup(EntriesOf(commands), ids)
      {
        assert ids[i..][1..] == ids[i + 1..];
        if ids[i] in commands {
          assert found + M.Lookup(EntriesOf(commands), ids[i..])
              == (found + [commands[ids[i]].command]) + M.Lookup(EntriesOf(commands), ids[i + 1..]);
          found := found + [commands[ids[i]].command];
        }
      }
      assert ids[|ids|..] == [];
      assert found + [] == found;
      return Some(found);
    }

    method Clear() returns (ok: bool)
      requires Valid()
      modifies this
      ensures Valid()
      ensures (View(), ok) == M.Clear(old(View()))
      ensures ok == running && (ok ==> commands == map[] && taskCommands == map[])
    {
      if !running { return false; }
      commands := map[];
      taskCommands := map[];
      return true;
    }

    /** Either reader takes the oldest command off a channel. */
    method ReceiveSent() returns (cmd: QueuedCommand)
      requires Valid() && sendChan != []
      modifies this`sendChan
      ensures Valid()
      ensures View() == old(View()).(sendChan := old(View()).sendChan[1..])
      ensures M.Item(cmd.command, cmd.taskId) == old(View()).sendChan[0]
    {
      cmd := sendChan[0];
      assert Items(sendChan[1..]) == Items(sendChan)[1..];
      sendChan := sendChan[1..];
    }

    method ReceiveCompleted() returns (cmd: QueuedCommand)
      requires Valid() && completeChan != []
      modifies this`completeChan
      ensures Valid()
      ensures View() == old(View()).(completeChan := old(View()).completeChan[1..])
      ensures M.Item(cmd.command, cmd.taskId) == old(View()).completeChan[0]
    {
      cmd := completeChan[0];
      assert Items(completeChan[1..]) == Items(completeChan)[1..];
      completeChan := completeChan[1..];
    }
  }

  /** The executor's side: devices by ID, and a record of what was written to them. */
  class CommandExecutor {
    const queue: ExecutionQueue
    var devices: M.Devices
    ghost var written: seq<MotionCommand>

    constructor (queue: ExecutionQueue)
      ensures this.queue == queue && devices == map[] && written == []
    {
      this.queue, devices, written := queue, map[], [];
    }

    /** Starts a received command, writes it when its device can be reached, and completes it with the device's answer or with the reason why not; a command that cannot be started is dropped without a trace. */
    method ProcessCommand(queued: QueuedCommand, answer: Option<string>, begun: int, ended: int)
      requires queue.Valid()
      modifies this`written, queue, queue.Records()
      ensures queue.Valid()
      ensures var c := queued.command;
              var (started, ok) := M.MarkStarted(old(queue.View()), c.id, begun);
              if !ok then queue.View() == old(queue.View()) && written == old(written)
              else if M.Reachable(devices, c.deviceId)
              then queue.View() == M.MarkCompleted(started, c.id, answer, ended).0 && written == old(written) + [c]
              else queue.View() == M.MarkCompleted(started, c.id, Some(M.DeviceProblem(devices, c.deviceId)), ended).0 && written == old(written)
      ensures var c := queued.command;
              var begins := c.id in old(queue.View()).commands && old(queue.View()).commands[c.id].status == M.Sent;
              && written == old(written) + (if begins && c.deviceId in devices && devices[c.deviceId] then [c] else [])
              && (begins ==>
                    && c.id in queue.commands && queue.commands[c.id].completedAt == Some(ended)
                    && (c.deviceId !in devices ==>
                          queue.commands[c.id].status == M.Failed && queue.commands[c.id].error == Some("device " + c.deviceId + " not found"))
                    && (c.deviceId in devices && !devices[c.deviceId] ==>
                          queue.commands[c.id].status == M.Failed && queue.commands[c.id].error == Some("device " + c.deviceId + " is not connected"))
                    && (c.deviceId in devices && devices[c.deviceId] ==>
                          && queue.commands[c.id].status == (if answer.Some? then M.Failed else M.Completed)
                          && (answer.Some? ==> queue.commands[c.id].error == answer)))
    {
      hide M.MarkCompleted, EntriesOf, Items;
      var c := queued.command;
      var ok := queue.MarkCommandStarted(c.id, begun);
      if !ok { return; }
      if c.deviceId !in devices {
        var done := queue.MarkCommandCompleted(c.id, Some("device " + c.deviceId + " not found"), ended);
        return;
      }
      if !devices[c.deviceId] {
        var done := queue.MarkCommandCompleted(c.id, Some("device " + c.deviceId + " is not connected"), ended);
        return;
      }
      written := written + [c];
      ok := queue.MarkCommandCompleted(c.id, answer, ended);
    }
  }
}
