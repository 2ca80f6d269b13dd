/**
 The execution queue as a value: two maps that must agree, two bounded channels, and
 commands whose status is changed by ID lookup.
 */
module QueueModel {
  import opened Wrappers
  import opened Motion
  import opened CommandIds

  datatype Status = Pending | Sent | Executing | Completed | Failed

  predicate Terminal(s: Status) { s == Completed || s == Failed }

  // A queued command. Times are readings of one clock.
  datatype Entry = Entry(
    command: MotionCommand,
    taskId: string,
    status: Status,
    sentAt: Option<int>,
    startedAt: Option<int>,
    completedAt: Option<int>,
    error: Option<string>
  )

  // What a reader of a channel uses of the command it receives: the parts that never change.
  datatype Item = Item(command: MotionCommand, taskId: string)

  datatype Queue = Queue(
    commands: map<string, Entry>,
    taskCommands: map<string, seq<string>>,
    sendChan: seq<Item>,
    completeChan: seq<Item>,
    maxSize: int,
    running: bool
  )

  const CHANNEL_SIZE := 10

  datatype PushResult = Queued | NotRunning | QueueFull | ChannelFull

  function NewEntry(c: MotionCommand): Entry {
    Entry(c, ExtractTaskId(c.id), Pending, None, None, None, None)
  }

  function ItemOf(e: Entry): Item {
    Item(e.command, e.taskId)
  }

  function ListOf(m: map<string, seq<string>>, task: string): seq<string> {
    if task in m then m[task] else []
  }

  // The list without its first occurrence of an ID.
  function WithoutFirst(ids: seq<string>, id: string): seq<string> {
    if ids == [] then [] else if ids[0] == id then ids[1..] else [ids[0]] + WithoutFirst(ids[1..], id)
  }

  // The two maps with a new command in them, before it is offered to the channel.
  function Inserted(q: Queue, c: MotionCommand): Queue {
    var task := ExtractTaskId(c.id);
    q.(commands := q.commands[c.id := NewEntry(c)],
       taskCommands := q.taskCommands[task := ListOf(q.taskCommands, task) + [c.id]])
  }

  lemma {:induction false} WithoutAbsent(ids: seq<string>, id: string)
    requires id !in ids
    ensures WithoutFirst(ids, id) == ids
    decreases ids
  {
    if ids != [] { WithoutAbsent(ids[1..], id); }
  }

  // Push, with the undo it falls into when the channel is full, as one step.
  function Push(q: Queue, c: MotionCommand): (Queue, PushResult) {
    if !q.running then (q, NotRunning)
    else if |q.commands| >= q.maxSize then (q, QueueFull)
    else
      var full := Inserted(q, c);
      var task := ExtractTaskId(c.id);
      if |q.sendChan| < CHANNEL_SIZE then (full.(sendChan := q.sendChan + [ItemOf(NewEntry(c))]), Queued)
      else (full.(commands := full.commands - {c.id},
                  taskCommands := full.taskCommands[task := WithoutFirst(full.taskCommands[task], c.id)]), ChannelFull)
  }

  function MarkSent(q: Queue, id: string, now: int): (Queue, bool) {
    if id !in q.commands || q.commands[id].status != Pending then (q, false)
    else (q.(commands := q.commands[id := q.commands[id].(status := Sent, sentAt := Some(now))]), true)
  }

  function MarkStarted(q: Queue, id: string, now: int): (Queue, bool) {
    if id !in q.commands || q.commands[id].status != Sent then (q, false)
    else (q.(commands := q.commands[id := q.commands[id].(status := Executing, startedAt := Some(now))]), true)
  }

  // Completion does not look at the status it replaces.
  function Finished(e: Entry, err: Option<string>, now: int): Entry {
    if err.Some? then e.(completedAt := Some(now), status := Failed, error := err)
    else e.(completedAt := Some(now), status := Completed)
  }

  function MarkCompleted(q: Queue, id: string, err: Option<string>, now: int): (Queue, bool) {
    if id !in q.commands then (q, false)
    else
      var e := Finished(q.commands[id], err, now);
      (q.(commands := q.commands[id := e],
          completeChan := if |q.completeChan| < CHANNEL_SIZE then q.completeChan + [ItemOf(e)] else q.completeChan), true)
  }

  // The registered devices, and whether each is connected.
  type Devices = map<string, bool>

  predicate Reachable(devices: Devices, device: string) {
    device in devices && devices[device]
  }

  // Why a command cannot be written.
  function DeviceProblem(devices: Devices, device: string): string {
    if device in devices then "device " + device + " is not connected" else "device " + device + " not found"
  }

  // The list of a task without one command; an emptied list goes away.
  function Unlisted(m: map<string, seq<string>>, task: string, id: string): map<string, seq<string>> {
    if task in m && id in m[task] then
      var rest := WithoutFirst(m[task], id);
      if rest == [] then m - {task} else m[task := rest]
    else m
  }

  function Cleanup(q: Queue, item: Item): Queue {
    var id := item.command.id;
    if id in q.commands && Terminal(q.commands[id].status) then
      q.(commands := q.commands - {id}, taskCommands := Unlisted(q.taskCommands, item.taskId, id))
    else q
  }

  function Members(ids: seq<string>): set<string> {
    set id | id in ids
  }

  function RemoveByTaskId(q: Queue, task: string): Queue {
    q.(commands := q.commands - Members(ListOf(q.taskCommands, task)), taskCommands := q.taskCommands - {task})
  }

  function Clear(q: Queue): (Queue, bool) {
    if !q.running then (q, false) else (q.(commands := map[], taskCommands := map[]), true)
  }

  // The commands found under a list of IDs, skipping those that are gone.
  function Lookup(commands: map<string, Entry>, ids: seq<string>): seq<MotionCommand> {
    if ids == [] then []
    else if ids[0] in commands then [commands[ids[0]].command] + Lookup(commands, ids[1..])
    else Lookup(commands, ids[1..])
  }

  function GetByTaskId(q: Queue, task: string): Option<seq<MotionCommand>> {
    if task !in q.taskCommands then None else Some(Lookup(q.commands, q.taskCommands[task]))
  }
}

/**
 The two maps as views of one list of commands in push order: when they agree with such a
 list, every operation takes the list to the list one would expect, and looking a task up
 is filtering the list.
 */
module QueueIndex {
  import opened Wrappers
  import opened Motion
  import opened CommandIds
  import opened QueueModel

  ghost predicate DistinctIds(l: seq<MotionCommand>) {
    forall i, j :: 0 <= i < j < |l| ==> l[i].id != l[j].id
  }

  // The IDs of a task's commands, and the commands themselves, in push order.
  function IdsOf(l: seq<MotionCommand>, task: string): seq<string> {
    if l == [] then []
    else if ExtractTaskId(l[0].id) == task then [l[0].id] + IdsOf(l[1..], task)
    else IdsOf(l[1..], task)
  }

  function OfTask(l: seq<MotionCommand>, task: string): seq<MotionCommand> {
    if l == [] then []
    else if ExtractTaskId(l[0].id) == task then [l[0]] + OfTask(l[1..], task)
    else OfTask(l[1..], task)
  }

  ghost predicate Lists(l: seq<MotionCommand>, id: string) {
    exists i :: 0 <= i < |l| && l[i].id == id
  }

  // The commands map holds exactly the listed commands.
  ghost predicate MapAgrees(commands: map<string, Entry>, l: seq<MotionCommand>) {
    && DistinctIds(l)
    && (forall id :: id in commands <==> Lists(l, id))
    && (forall i :: 0 <= i < |l| ==> l[i].id in commands && commands[l[i].id].command == l[i])
    && (forall id :: id in commands ==> commands[id].taskId == ExtractTaskId(id))
  }

  // Each task's list is the IDs of its commands, in push order.
  ghost predicate ListsAgree(taskCommands: map<string, seq<string>>, l: seq<MotionCommand>) {
    forall task :: ListOf(taskCommands, task) == IdsOf(l, task)
  }

  ghost predicate Agrees(q: Queue, l: seq<MotionCommand>) {
    MapAgrees(q.commands, l) && ListsAgree(q.taskCommands, l)
  }

  lemma {:induction false} IdsOfAppend(a: seq<MotionCommand>, b: seq<MotionCommand>, task: string)
    ensures IdsOf(a + b, task) == IdsOf(a, task) + IdsOf(b, task)
    ensures OfTask(a + b, task) == OfTask(a, task) + OfTask(b, task)
    decreases a
  {
    if a == [] {
      assert a + b == b;
    } else {
      assert (a + b)[1..] == a[1..] + b;
      IdsOfAppend(a[1..], b, task);
    }
  }

  lemma {:induction false} IdsOfHas(l: seq<MotionCommand>, task: string, id: string)
    ensures id in IdsOf(l, task) <==> Lists(l, id) && ExtractTaskId(id) == task
    decreases l
  {
    if l != [] {
      IdsOfHas(l[1..], task, id);
      if Lists(l, id) {
        var i :| 0 <= i < |l| && l[i].id == id;
        assert i > 0 ==> l[1..][i - 1].id == id;
      }
      if Lists(l[1..], id) {
        var i :| 0 <= i < |l[1..]| && l[1..][i].id == id;
        assert l[i + 1].id == id;
      }
    }
  }

  lemma {:induction false} WithoutFirstAppend(a: seq<string>, id: string)
    requires id !in a
    ensures WithoutFirst(a + [id], id) == a
    decreases a
  {
    if a == [] {
      assert (a + [id])[1..] == [];
    } else {
      assert (a + [id])[1..] == a[1..] + [id];
      WithoutFirstAppend(a[1..], id);
    }
  }

  /** Looking a task up is filtering the push-ordered list; an unknown task has no commands in it. */
  lemma GetByTaskIdIsFilter(q: Queue, l: seq<MotionCommand>, task: string)
    requires Agrees(q, l)
    ensures match GetByTaskId(q, task)
            case None => OfTask(l, task) == []
            case Some(cs) => cs == OfTask(l, task)
  {
    assert ListOf(q.taskCommands, task) == IdsOf(l, task);
    LookupListed(q, l, l, task);
  }

  lemma {:induction false} LookupListed(q: Queue, l: seq<MotionCommand>, part: seq<MotionCommand>, task: string)
    requires Agrees(q, l)
    requires forall i :: 0 <= i < |part| ==> part[i] in l
    ensures Lookup(q.commands, IdsOf(part, task)) == OfTask(part, task)
    decreases part
  {
    if part != [] {
      LookupListed(q, l, part[1..], task);
      assert part[0] in l;
      var here := if ExtractTaskId(part[0].id) == task then [part[0].id] else [];
      assert here != [] ==> IdsOf(part, task)[1..] == IdsOf(part[1..], task);
      assert here == [] ==> IdsOf(part, task) == IdsOf(part[1..], task);
    }
  }

  // ---------------------------------------------------------------- pushing

  lemma MapWithOneMore(commands: map<string, Entry>, l: seq<MotionCommand>, c: MotionCommand)
    requires MapAgrees(commands, l) && c.id !in commands
    ensures MapAgrees(commands[c.id := NewEntry(c)], l + [c])
  {
    var l' := l + [c];
    assert forall i :: 0 <= i < |l| ==> l'[i] == l[i];
    assert l'[|l|] == c;
    forall id ensures id in commands[c.id := NewEntry(c)] <==> Lists(l', id) {
      if Lists(l, id) {
        var i :| 0 <= i < |l| && l[i].id == id;
        assert l'[i].id == id;
      }
    }
    forall i, j | 0 <= i < j < |l'| ensures l'[i].id != l'[j].id {
      assert Lists(l, l'[i].id);
    }
  }

  lemma ListsWithOneMore(m: map<string, seq<string>>, l: seq<MotionCommand>, c: MotionCommand)
    requires ListsAgree(m, l)
    ensures var task := ExtractTaskId(c.id); ListsAgree(m[task := ListOf(m, task) + [c.id]], l + [c])
  {
    var task := ExtractTaskId(c.id);
    var m' := m[task := ListOf(m, task) + [c.id]];
    forall t ensures ListOf(m', t) == IdsOf(l + [c], t) {
      IdsOfAppend(l, [c], t);
      assert [c][1..] == [];
      assert ListOf(m, t) == IdsOf(l, t);
    }
  }

  lemma PushQueued(q: Queue, l: seq<MotionCommand>, c: MotionCommand)
    requires Agrees(q, l) && c.id !in q.commands && Push(q, c).1 == Queued
    ensures Agrees(Push(q, c).0, l + [c])
  {
    hide MapAgrees, ListsAgree;
    MapWithOneMore(q.commands, l, c);
    ListsWithOneMore(q.taskCommands, l, c);
  }

  lemma PushUndone(q: Queue, l: seq<MotionCommand>, c: MotionCommand)
    requires Agrees(q, l) && c.id !in q.commands && Push(q, c).1 == ChannelFull
    ensures Agrees(Push(q, c).0, l)
  {
    hide MapAgrees;
    var q' := Push(q, c).0;
    var task := ExtractTaskId(c.id);
    assert ListOf(q.taskCommands, task) == IdsOf(l, task);
    assert c.id !in IdsOf(l, task) by { NotListed(q, l, task, c.id); }
    WithoutFirstAppend(IdsOf(l, task), c.id);
    assert q'.commands == q.commands;
    forall t ensures ListOf(q'.taskCommands, t) == IdsOf(l, t) {
      assert ListOf(q.taskCommands, t) == IdsOf(l, t);
    }
  }

  lemma NotListed(q: Queue, l: seq<MotionCommand>, task: string, id: string)
    requires Agrees(q, l) && id !in q.commands
    ensures id !in IdsOf(l, task)
  {
    IdsOfHas(l, task, id);
  }

  lemma {:induction false} IdsOfDistinct(l: seq<MotionCommand>, task: string)
    requires DistinctIds(l)
    ensures forall i, j :: 0 <= i < j < |IdsOf(l, task)| ==> IdsOf(l, task)[i] != IdsOf(l, task)[j]
    decreases l
  {
    if l != [] {
      IdsOfDistinct(l[1..], task);
      IdsOfHas(l[1..], task, l[0].id);
      if Lists(l[1..], l[0].id) {
        var i :| 0 <= i < |l[1..]| && l[1..][i].id == l[0].id;
        assert l[1..][i] == l[i + 1];
      }
      assert DistinctIds(l[1..]);
    }
  }

  /** A push keeps the two maps in agreement exactly when it is turned away at the door or its ID is new. */
  lemma PushAgreesIff(q: Queue, l: seq<MotionCommand>, c: MotionCommand)
    requires Agrees(q, l)
    ensures (exists l' :: Agrees(Push(q, c).0, l'))
       <==> (!q.running || |q.commands| >= q.maxSize || c.id !in q.commands)
  {
    var (q', r) := Push(q, c);
    if r == NotRunning || r == QueueFull {
      assert Agrees(q', l);
    } else if c.id !in q.commands {
      if r == Queued { PushQueued(q, l, c); } else { PushUndone(q, l, c); }
    } else {
      forall l' ensures !Agrees(q', l') {
        if Agrees(q', l') { PushClashes(q, l, c, l'); }
      }
    }
  }

  // A second push of a present ID lists it twice, or leaves it listed without an entry.
  lemma PushClashes(q: Queue, l: seq<MotionCommand>, c: MotionCommand, l': seq<MotionCommand>)
    requires Agrees(q, l) && c.id in q.commands && q.running && |q.commands| < q.maxSize
    ensures !Agrees(Push(q, c).0, l')
  {
    var q' := Push(q, c).0;
    var task := ExtractTaskId(c.id);
    var ids := IdsOf(l, task);
    IdsOfHas(l, task, c.id);
    var i :| 0 <= i < |ids| && ids[i] == c.id;
    assert ListOf(q.taskCommands, task) == ids;
    if Agrees(q', l') {
      assert ListOf(q'.taskCommands, task) == IdsOf(l', task);
      IdsOfDistinct(l', task);
      IdsOfHas(l', task, c.id);
      if |q.sendChan| < CHANNEL_SIZE {
        assert IdsOf(l', task)[i] == IdsOf(l', task)[|ids|];
      } else {
        WithoutFirstKeeps(ids, c.id);
      }
    }
  }

  lemma {:induction false} WithoutFirstKeeps(a: seq<string>, id: string)
    requires id in a
    ensures id in WithoutFirst(a + [id], id)
    decreases a
  {
    assert (a + [id])[1..] == a[1..] + [id];
    if a[0] == id {
      assert (a + [id])[1..][|a| - 1] == id;
    } else {
      WithoutFirstKeeps(a[1..], id);
    }
  }

  // ---------------------------------------------------------------- removing

  // The list without the command of one ID, or without the commands of one task.
  function WithoutId(l: seq<MotionCommand>, id: string): seq<MotionCommand> {
    if l == [] then [] else if l[0].id == id then WithoutId(l[1..], id) else [l[0]] + WithoutId(l[1..], id)
  }

  function WithoutTask(l: seq<MotionCommand>, task: string): seq<MotionCommand> {
    if l == [] then []
    else if ExtractTaskId(l[0].id) == task then WithoutTask(l[1..], task)
    else [l[0]] + WithoutTask(l[1..], task)
  }

  // A shorter list made of some of the elements of a longer one, in the same order.
  ghost predicate Thinned(l: seq<MotionCommand>, part: seq<MotionCommand>)
    decreases l
  {
    if l == [] then part == []
    else Thinned(l[1..], part) || (part != [] && part[0] == l[0] && Thinned(l[1..], part[1..]))
  }

  lemma {:induction false} ThinnedMembers(l: seq<MotionCommand>, part: seq<MotionCommand>)
    requires Thinned(l, part)
    ensures forall c :: c in part ==> c in l
    ensures DistinctIds(l) ==> DistinctIds(part)
    decreases l
  {
    if l != [] {
      if DistinctIds(l) {
        forall i, j | 0 <= i < j < |l[1..]| ensures l[1..][i].id != l[1..][j].id {
          assert l[i + 1].id != l[j + 1].id;
        }
      }
      assert l == [l[0]] + l[1..];
      if Thinned(l[1..], part) {
        ThinnedMembers(l[1..], part);
      } else {
        ThinnedMembers(l[1..], part[1..]);
        assert part == [part[0]] + part[1..];
        if DistinctIds(l) {
          forall i, j | 0 <= i < j < |part| ensures part[i].id != part[j].id {
            assert part[j] == part[1..][j - 1] && part[j] in l[1..];
            var m :| 0 <= m < |l[1..]| && l[1..][m] == part[j];
            assert l[m + 1].id != l[0].id;
            if i > 0 { assert part[i] == part[1..][i - 1]; }
          }
        }
      }
    }
  }

  lemma {:induction false} WithoutIdShape(l: seq<MotionCommand>, id: string)
    ensures Thinned(l, WithoutId(l, id))
    ensures forall c :: c in WithoutId(l, id) <==> c in l && c.id != id
    decreases l
  {
    if l != [] {
      WithoutIdShape(l[1..], id);
      assert l == [l[0]] + l[1..];
      assert ([l[0]] + WithoutId(l[1..], id))[1..] == WithoutId(l[1..], id);
    }
  }

  lemma {:induction false} WithoutTaskShape(l: seq<MotionCommand>, task: string)
    ensures Thinned(l, WithoutTask(l, task))
    ensures forall c :: c in WithoutTask(l, task) <==> c in l && ExtractTaskId(c.id) != task
    decreases l
  {
    if l != [] {
      WithoutTaskShape(l[1..], task);
      assert l == [l[0]] + l[1..];
      assert ([l[0]] + WithoutTask(l[1..], task))[1..] == WithoutTask(l[1..], task);
    }
  }

  // Dropping entries and their commands together keeps the map in agreement.
  lemma MapThinned(commands: map<string, Entry>, l: seq<MotionCommand>, gone: set<string>, part: seq<MotionCommand>)
    requires MapAgrees(commands, l) && Thinned(l, part)
    requires forall c :: c in part <==> c in l && c.id !in gone
    ensures MapAgrees(commands - gone, part)
  {
    ThinnedMembers(l, part);
    forall i | 0 <= i < |part| ensures part[i].id in commands - gone && (commands - gone)[part[i].id].command == part[i] {
      assert part[i] in part && part[i] in l;
    }
    forall id ensures id in commands - gone <==> Lists(part, id) {
      if id in commands - gone {
        var i :| 0 <= i < |l| && l[i].id == id;
        assert l[i] in l && l[i] in part;
        var j :| 0 <= j < |part| && part[j] == l[i];
      }
    }
  }

  lemma {:induction false} IdsWithoutId(l: seq<MotionCommand>, id: string, task: string)
    requires DistinctIds(l)
    ensures IdsOf(WithoutId(l, id), task) == WithoutFirst(IdsOf(l, task), id)
    decreases l
  {
    if l != [] {
      forall i, j | 0 <= i < j < |l[1..]| ensures l[1..][i].id != l[1..][j].id {
        assert l[i + 1].id != l[j + 1].id;
      }
      IdsWithoutId(l[1..], id, task);
      if l[0].id == id {
        forall i | 0 <= i < |l[1..]| ensures l[1..][i].id != id { assert l[i + 1].id != l[0].id; }
        IdAbsent(l[1..], id);
        IdsOfHas(l[1..], task, id);
        WithoutAbsent(IdsOf(l[1..], task), id);
      } else {
        var here := if ExtractTaskId(l[0].id) == task then [l[0].id] else [];
        assert WithoutId(l, id) == [l[0]] + WithoutId(l[1..], id);
        assert ([l[0]] + WithoutId(l[1..], id))[1..] == WithoutId(l[1..], id);
        assert IdsOf(l, task) == here + IdsOf(l[1..], task);
        if here != [] { assert IdsOf(l, task)[1..] == IdsOf(l[1..], task); }
      }
    }
  }

  lemma {:induction false} IdAbsent(l: seq<MotionCommand>, id: string)
    requires forall i :: 0 <= i < |l| ==> l[i].id != id
    ensures WithoutId(l, id) == l
    decreases l
  {
    if l != [] { IdAbsent(l[1..], id); }
  }

  lemma {:induction false} IdsWithoutTask(l: seq<MotionCommand>, gone: string, task: string)
    ensures IdsOf(WithoutTask(l, gone), task) == if task == gone then [] else IdsOf(l, task)
    decreases l
  {
    if l != [] {
      IdsWithoutTask(l[1..], gone, task);
      if ExtractTaskId(l[0].id) != gone {
        assert ([l[0]] + WithoutTask(l[1..], gone))[1..] == WithoutTask(l[1..], gone);
      }
    }
  }

  /** Cleaning up a finished command takes it out of the list; anything else is left alone. */
  lemma CleanupAgrees(q: Queue, l: seq<MotionCommand>, item: Item)
    requires Agrees(q, l) && item.taskId == ExtractTaskId(item.command.id)
    ensures var id := item.command.id;
            Agrees(Cleanup(q, item), if id in q.commands && Terminal(q.commands[id].status) then WithoutId(l, id) else l)
  {
    var id := item.command.id;
    if id in q.commands && Terminal(q.commands[id].status) {
      WithoutIdShape(l, id);
      MapThinned(q.commands, l, {id}, WithoutId(l, id));
      UnlistedAgrees(q.taskCommands, l, id);
    }
  }

  lemma UnlistedAgrees(m: map<string, seq<string>>, l: seq<MotionCommand>, id: string)
    requires ListsAgree(m, l) && DistinctIds(l)
    ensures ListsAgree(Unlisted(m, ExtractTaskId(id), id), WithoutId(l, id))
  {
    var m' := Unlisted(m, ExtractTaskId(id), id);
    forall task ensures ListOf(m', task) == IdsOf(WithoutId(l, id), task) {
      IdsWithoutId(l, id, task);
      IdsOfHas(l, task, id);
      assert ListOf(m, task) == IdsOf(l, task);
      if id !in IdsOf(l, task) { WithoutAbsent(IdsOf(l, task), id); }
    }
  }

  /** Removing a task takes its commands, and no others, out of the list. */
  lemma RemoveAgrees(q: Queue, l: seq<MotionCommand>, task: string)
    requires Agrees(q, l)
    ensures Agrees(RemoveByTaskId(q, task), WithoutTask(l, task))
  {
    var q' := RemoveByTaskId(q, task);
    var ids := ListOf(q.taskCommands, task);
    var gone := Members(ids);
    WithoutTaskShape(l, task);
    forall c ensures c in WithoutTask(l, task) <==> c in l && c.id !in gone {
      IdsOfHas(l, task, c.id);
      if c in l {
        var i :| 0 <= i < |l| && l[i] == c;
        assert Lists(l, c.id);
      }
    }
    MapThinned(q.commands, l, gone, WithoutTask(l, task));
    ListsWithoutTask(q.taskCommands, l, task);
  }

  lemma ListsWithoutTask(m: map<string, seq<string>>, l: seq<MotionCommand>, task: string)
    requires ListsAgree(m, l)
    ensures ListsAgree(m - {task}, WithoutTask(l, task))
  {
    forall t ensures ListOf(m - {task}, t) == IdsOf(WithoutTask(l, task), t) {
      IdsWithoutTask(l, task, t);
      assert ListOf(m, t) == IdsOf(l, t);
    }
  }

  lemma ClearAgrees(q: Queue)
    requires q.running
    ensures Agrees(Clear(q).0, [])
  {
  }

  lemma MapReplaced(commands: map<string, Entry>, l: seq<MotionCommand>, id: string, e: Entry)
    requires MapAgrees(commands, l) && id in commands
    requires e.command == commands[id].command && e.taskId == commands[id].taskId
    ensures MapAgrees(commands[id := e], l)
  {
  }

  /** Changing the status of an entry concerns neither map's index. */
  lemma MarkAgrees(q: Queue, l: seq<MotionCommand>, id: string, err: Option<string>, now: int)
    requires Agrees(q, l)
    ensures Agrees(MarkSent(q, id, now).0, l)
    ensures Agrees(MarkStarted(q, id, now).0, l)
    ensures Agrees(MarkCompleted(q, id, err, now).0, l)
  {
    hide MapAgrees, ListsAgree;
    if id in q.commands {
      var e := q.commands[id];
      MapReplaced(q.commands, l, id, e.(status := Sent, sentAt := Some(now)));
      MapReplaced(q.commands, l, id, e.(status := Executing, startedAt := Some(now)));
      MapReplaced(q.commands, l, id, Finished(e, err, now));
    }
  }
}
