/**
 From task to queue and back: a task's commands, stamped with their running numbers and
 pushed in order among everything else the system does. Looking the task up returns just
 these commands exactly when its ID has no '-' and no other task's commands stand on its list.
 */
module TaskRoundTrip {
  import opened Wrappers
  import opened Motion
  import opened CommandIds
  import opened QueueModel
  import opened QueueIndex
  import opened CommandPipeline

  // The ID is one that the task's own commands are stamped with.
  ghost predicate IsOwn(id: string, task: string) {
    exists i: nat :: id == CommandId(task, i)
  }

  // The queue takes the ID for one of the task's, but it is not.
  ghost predicate IsForeign(id: string, task: string) {
    ExtractTaskId(id) == task && !IsOwn(id, task)
  }

  // Commands stamped with their place in the task's decomposition.
  ghost predicate Stamped(cs: seq<MotionCommand>, task: string) {
    forall i :: 0 <= i < |cs| ==> cs[i].id == CommandId(task, i)
  }

  // The task's own commands that a run pushes, and those among some commands, in order.
  ghost function OwnPushes(acts: seq<Action>, task: string): seq<MotionCommand> {
    if acts == [] then []
    else if acts[0].PushOne? && IsOwn(acts[0].c.id, task) then [acts[0].c] + OwnPushes(acts[1..], task)
    else OwnPushes(acts[1..], task)
  }

  ghost function OwnOf(l: seq<MotionCommand>, task: string): seq<MotionCommand> {
    if l == [] then []
    else if IsOwn(l[0].id, task) then [l[0]] + OwnOf(l[1..], task)
    else OwnOf(l[1..], task)
  }

  // A push of the task's own commands is accepted, any other finds its ID free, and nothing
  // takes a command of the task's own out of the queue. Other commands may come and go.
  ghost predicate Spares(s: System, act: Action, task: string)
    requires Enabled(s, act)
  {
    && (act.PushOne? ==> if IsOwn(act.c.id, task) then Push(s.q, act.c).1 == Queued else Fresh(s, act))
    && (forall id :: id in s.q.commands && IsOwn(id, task) ==> id in Next(s, act).q.commands)
  }

  ghost predicate SparesAll(s: System, acts: seq<Action>, task: string)
    requires IsRun(s, acts)
    decreases acts
  {
    acts == [] || (Spares(s, acts[0], task) && SparesAll(Next(s, acts[0]), acts[1..], task))
  }

  // The lookup gives these commands and no others; of no commands it may also find no list.
  predicate ComesBack(found: Option<seq<MotionCommand>>, cs: seq<MotionCommand>) {
    found == Some(cs) || (cs == [] && found == None)
  }

  // Another task's command is in the queue under this task's ID.
  ghost predicate Intruded(q: Queue, task: string) {
    exists id :: id in q.commands && IsForeign(id, task)
  }

  // ---------------------------------------------------------------- the task's own commands stay

  lemma {:induction false} OwnOfAppend(l: seq<MotionCommand>, c: MotionCommand, task: string)
    ensures OwnOf(l + [c], task) == OwnOf(l, task) + (if IsOwn(c.id, task) then [c] else [])
    decreases l
  {
    if l == [] {
      assert l + [c] == [c] && [c][1..] == [];
    } else {
      assert (l + [c])[0] == l[0] && (l + [c])[1..] == l[1..] + [c];
      hide IsOwn;
      OwnOfAppend(l[1..], c, task);
    }
  }

  lemma {:induction false} OwnOfWithoutId(l: seq<MotionCommand>, id: string, task: string)
    requires !IsOwn(id, task)
    ensures OwnOf(WithoutId(l, id), task) == OwnOf(l, task)
    decreases l
  {
    hide IsOwn;
    if l != [] {
      OwnOfWithoutId(l[1..], id, task);
      if l[0].id != id {
        assert WithoutId(l, id)[1..] == WithoutId(l[1..], id);
      }
    }
  }

  lemma {:induction false} OwnOfWithoutTask(l: seq<MotionCommand>, gone: string, task: string)
    requires forall i :: 0 <= i < |l| && IsOwn(l[i].id, task) ==> ExtractTaskId(l[i].id) != gone
    ensures OwnOf(WithoutTask(l, gone), task) == OwnOf(l, task)
    decreases l
  {
    hide IsOwn;
    if l != [] {
      assert forall i :: 0 <= i < |l[1..]| ==> l[1..][i] == l[i + 1];
      OwnOfWithoutTask(l[1..], gone, task);
      if ExtractTaskId(l[0].id) != gone {
        assert WithoutTask(l, gone)[1..] == WithoutTask(l[1..], gone);
      }
    }
  }

  lemma {:induction false} OwnOfNone(l: seq<MotionCommand>, task: string)
    requires forall i :: 0 <= i < |l| ==> !IsOwn(l[i].id, task)
    ensures OwnOf(l, task) == []
    decreases l
  {
    hide IsOwn;
    if l != [] {
      assert forall i :: 0 <= i < |l[1..]| ==> l[1..][i] == l[i + 1];
      OwnOfNone(l[1..], task);
    }
  }

  lemma {:induction false} OwnOfHas(l: seq<MotionCommand>, task: string, i: nat)
    requires i < |l| && IsOwn(l[i].id, task)
    ensures l[i] in OwnOf(l, task)
    decreases l
  {
    hide IsOwn;
    if i > 0 {
      OwnOfHas(l[1..], task, i - 1);
    }
  }

  // The next stamped command is new to the queue when those before it are all the task has there.
  lemma NextIsFresh(q: Queue, l: seq<MotionCommand>, task: string, cs: seq<MotionCommand>, k: nat)
    requires Agrees(q, l) && Stamped(cs, task)
    requires k < |cs| && OwnOf(l, task) == cs[..k]
    ensures cs[k].id !in q.commands
  {
    if cs[k].id in q.commands {
      var i :| 0 <= i < |l| && l[i].id == cs[k].id;
      assert IsOwn(l[i].id, task) by { assert l[i].id == CommandId(task, k); }
      OwnOfHas(l, task, i);
      var j :| 0 <= j < k && cs[..k][j] == l[i];
      CommandIdInjective(task, j, task, k);
    }
  }

  lemma SparedRemoval(s: System, t: string, l: seq<MotionCommand>, task: string)
    requires Agrees(s.q, l) && Spares(s, RemoveTask(t), task)
    ensures OwnOf(WithoutTask(l, t), task) == OwnOf(l, task)
  {
    forall i | 0 <= i < |l| && IsOwn(l[i].id, task) ensures ExtractTaskId(l[i].id) != t {
      assert l[i].id in s.q.commands;
      IdsOfHas(l, t, l[i].id);
      assert ListOf(s.q.taskCommands, t) == IdsOf(l, t);
    }
    OwnOfWithoutTask(l, t, task);
  }

  lemma SparedClear(s: System, l: seq<MotionCommand>, task: string)
    requires Agrees(s.q, l) && s.q.running && Spares(s, ClearAll, task)
    ensures OwnOf(l, task) == []
  {
    forall i | 0 <= i < |l| ensures !IsOwn(l[i].id, task) {
      assert l[i].id in s.q.commands;
    }
    OwnOfNone(l, task);
  }

  // A sparing step keeps the index and adds to the task's own commands just what it pushes.
  lemma SparedStep(s: System, act: Action, l: seq<MotionCommand>, task: string)
    requires Agrees(s.q, l) && WellLabelled(s) && Enabled(s, act) && Fresh(s, act) && Spares(s, act, task)
    ensures Agrees(Next(s, act).q, Tracked(s, act, l)) && WellLabelled(Next(s, act))
    ensures OwnOf(Tracked(s, act, l), task) == OwnOf(l, task) + (if act.PushOne? && IsOwn(act.c.id, task) then [act.c] else [])
  {
    AgreesStep(s, act, l);
    WellLabelledStep(s, act);
    match act
    case PushOne(c) => OwnOfAppend(l, c, task);
    case Clean(i) => SparedClean(s, i, l, task);
    case RemoveTask(t) => SparedRemoval(s, t, l, task);
    case ClearAll => if s.q.running { SparedClear(s, l, task); }
    case _ =>
  }

  lemma SparedClean(s: System, i: nat, l: seq<MotionCommand>, task: string)
    requires Enabled(s, Clean(i)) && Spares(s, Clean(i), task)
    ensures OwnOf(Tracked(s, Clean(i), l), task) == OwnOf(l, task)
  {
    var id := s.toClean[i].command.id;
    if id in s.q.commands && Terminal(s.q.commands[id].status) {
      assert id !in Next(s, Clean(i)).q.commands;
      OwnOfWithoutId(l, id, task);
    }
  }

  lemma SparingIsFresh(s: System, acts: seq<Action>, l: seq<MotionCommand>, task: string, cs: seq<MotionCommand>, k: nat)
    requires Agrees(s.q, l) && acts != [] && Enabled(s, acts[0]) && Spares(s, acts[0], task)
    requires Stamped(cs, task) && k <= |cs|
    requires OwnOf(l, task) == cs[..k] && OwnPushes(acts, task) == cs[k..]
    ensures Fresh(s, acts[0])
    ensures var k' := if acts[0].PushOne? && IsOwn(acts[0].c.id, task) then k + 1 else k;
            k' <= |cs| && OwnPushes(acts[1..], task) == cs[k'..] && (k' == k + 1 ==> acts[0].c == cs[k])
  {
    hide IsOwn, Next;
    if acts[0].PushOne? && IsOwn(acts[0].c.id, task) {
      assert acts[0].c == cs[k..][0] == cs[k];
      hide Agrees, Stamped;
      NextIsFresh(s.q, l, task, cs, k);
      assert OwnPushes(acts, task)[1..] == OwnPushes(acts[1..], task);
    }
  }

  // Over a sparing run the task's own live commands are those before it and those it pushes.
  lemma {:induction false} OwnStay(s: System, acts: seq<Action>, l: seq<MotionCommand>, task: string, cs: seq<MotionCommand>, k: nat)
    requires Agrees(s.q, l) && WellLabelled(s) && IsRun(s, acts) && SparesAll(s, acts, task)
    requires Stamped(cs, task) && k <= |cs|
    requires OwnOf(l, task) == cs[..k] && OwnPushes(acts, task) == cs[k..]
    ensures Agrees(After(s, acts).q, TrackedAll(s, acts, l)) && OwnOf(TrackedAll(s, acts, l), task) == cs
    decreases acts
  {
    hide Agrees, WellLabelled, Next, Spares, Fresh, Enabled, Tracked, IsOwn, Stamped, OwnOf;
    if acts == [] {
      assert k == |cs| && cs[..k] == cs;
    } else {
      var act := acts[0];
      var k' := if act.PushOne? && IsOwn(act.c.id, task) then k + 1 else k;
      SparingIsFresh(s, acts, l, task, cs, k);
      SparedStep(s, act, l, task);
      assert cs[..k'] == cs[..k] + if k' == k + 1 then [act.c] else [];
      OwnStay(Next(s, act), acts[1..], Tracked(s, act, l), task, cs, k');
    }
  }

  // ---------------------------------------------------------------- when looking up gives just these

  lemma OwnIsOfTask(id: string, task: string)
    requires IsOwn(id, task) && '-' !in task
    ensures ExtractTaskId(id) == task
  {
    var i: nat :| id == CommandId(task, i);
    ExtractFromCommandId(task, i);
  }

  // Filtering by the queue's notion of the task and by the task's own IDs differ just by the foreign commands.
  lemma {:induction false} FiltersAgreeIff(l: seq<MotionCommand>, task: string)
    requires '-' !in task
    ensures |OwnOf(l, task)| <= |OfTask(l, task)|
    ensures OfTask(l, task) == OwnOf(l, task) <==> forall i :: 0 <= i < |l| ==> !IsForeign(l[i].id, task)
    decreases l
  {
    if l != [] {
      var rest := l[1..];
      FiltersAgreeIff(rest, task);
      if IsOwn(l[0].id, task) {
        OwnIsOfTask(l[0].id, task);
        assert OfTask(l, task)[1..] == OfTask(rest, task) && OwnOf(l, task)[1..] == OwnOf(rest, task);
      }
      ForeignHeadOrRest(l, task);
    }
  }

  lemma ForeignHeadOrRest(l: seq<MotionCommand>, task: string)
    requires l != []
    ensures (forall i :: 0 <= i < |l| ==> !IsForeign(l[i].id, task))
       <==> !IsForeign(l[0].id, task) && forall i :: 0 <= i < |l[1..]| ==> !IsForeign(l[1..][i].id, task)
  {
    hide IsForeign;
    assert forall i :: 0 <= i < |l[1..]| ==> l[1..][i] == l[i + 1];
    assert forall i :: 1 <= i < |l| ==> l[i] == l[1..][i - 1];
  }

  lemma {:induction false} NoneOfDashed(l: seq<MotionCommand>, task: string)
    requires '-' in task
    ensures OfTask(l, task) == []
    decreases l
  {
    if l != [] {
      ExtractShape(l[0].id);
      NoneOfDashed(l[1..], task);
    }
  }

  lemma IntrudedIff(q: Queue, l: seq<MotionCommand>, task: string)
    requires Agrees(q, l)
    ensures Intruded(q, task) <==> exists i :: 0 <= i < |l| && IsForeign(l[i].id, task)
    ensures Intruded(q, task) ==> '-' !in task
  {
    hide IsForeign;
    if id :| id in q.commands && IsForeign(id, task) {
      var i :| 0 <= i < |l| && l[i].id == id;
      ForeignIsUndashed(id, task);
    }
    if i :| 0 <= i < |l| && IsForeign(l[i].id, task) {
      assert l[i].id in q.commands;
    }
  }

  lemma ForeignIsUndashed(id: string, task: string)
    requires IsForeign(id, task)
    ensures '-' !in task
  {
    ExtractShape(id);
  }

  /**
   Decompose, push, look up: from an unused queue, over every run that spares the task's own
   commands, the lookup gives these and no others exactly when the task's ID has no '-' (or
   there is nothing to give) and no other task's command is in the queue under this ID.
   */
  lemma ComesBackIff(q: Queue, acts: seq<Action>, task: string, cs: seq<MotionCommand>)
    requires Unused(q) && IsRun(Start(q), acts) && SparesAll(Start(q), acts, task)
    requires Stamped(cs, task) && OwnPushes(acts, task) == cs
    ensures ComesBack(GetByTaskId(After(Start(q), acts).q, task), cs)
       <==> (cs == [] || '-' !in task) && !Intruded(After(Start(q), acts).q, task)
  {
    var end := After(Start(q), acts).q;
    var l := TrackedAll(Start(q), acts, []);
    assert Agrees(q, []);
    OwnStay(Start(q), acts, [], task, cs, 0);
    GetByTaskIdIsFilter(end, l, task);
    IntrudedIff(end, l, task);
    hide *;
    hide Agrees, After, TrackedAll, IsRun, Intruded, Stamped, OwnPushes, SparesAll, GetByTaskId, Start, OfTask, OwnOf, IsForeign;
    if '-' in task {
      NoneOfDashed(l, task);
    } else {
      FiltersAgreeIff(l, task);
    }
  }

  // ---------------------------------------------------------------- where the others come from

  // A push of another task's command under this task's ID is accepted somewhere in the run.
  ghost predicate Intrudes(s: System, acts: seq<Action>, task: string)
    requires IsRun(s, acts)
    decreases acts
  {
    acts != []
    && ((acts[0].PushOne? && IsForeign(acts[0].c.id, task) && Push(s.q, acts[0].c).1 == Queued)
        || Intrudes(Next(s, acts[0]), acts[1..], task))
  }

  // No step takes another task's command that stands under this task's ID out of the queue.
  ghost predicate IntrudersStay(s: System, acts: seq<Action>, task: string)
    requires IsRun(s, acts)
    decreases acts
  {
    acts == []
    || ((forall id :: id in s.q.commands && IsForeign(id, task) ==> id in Next(s, acts[0]).q.commands)
        && IntrudersStay(Next(s, acts[0]), acts[1..], task))
  }

  lemma OnlyPushesAdd(s: System, act: Action, id: string)
    requires Enabled(s, act) && id in Next(s, act).q.commands && id !in s.q.commands
    ensures act.PushOne? && act.c.id == id && Push(s.q, act.c).1 == Queued
  {
  }

  lemma AcceptedIsIn(s: System, c: MotionCommand)
    requires Push(s.q, c).1 == Queued
    ensures c.id in Next(s, PushOne(c)).q.commands
  {
  }

  lemma {:induction false} IntrudedByPushes(s: System, acts: seq<Action>, task: string)
    requires IsRun(s, acts)
    ensures Intruded(After(s, acts).q, task) ==> Intruded(s.q, task) || Intrudes(s, acts, task)
    ensures IntrudersStay(s, acts, task) ==> (Intruded(After(s, acts).q, task) <==> Intruded(s.q, task) || Intrudes(s, acts, task))
    decreases acts
  {
    if acts != [] {
      IntrudedByPushes(Next(s, acts[0]), acts[1..], task);
      hide IsForeign, Next, Push;
      var s1 := Next(s, acts[0]);
      if id :| id in s1.q.commands && IsForeign(id, task) {
        if id !in s.q.commands { OnlyPushesAdd(s, acts[0], id); }
      }
      if acts[0].PushOne? && Push(s.q, acts[0].c).1 == Queued { AcceptedIsIn(s, acts[0].c); }
    }
  }

  /**
   In terms of the run alone: when nothing that stands under the task's ID is taken out, the
   task comes back exactly when its ID has no '-' (or it has no commands) and no push of
   another task's command under its ID is accepted. Without such a push it comes back anyway.
   */
  lemma ComesBackUnlessIntruded(q: Queue, acts: seq<Action>, task: string, cs: seq<MotionCommand>)
    requires Unused(q) && IsRun(Start(q), acts) && SparesAll(Start(q), acts, task)
    requires Stamped(cs, task) && OwnPushes(acts, task) == cs
    ensures (cs == [] || '-' !in task) && !Intrudes(Start(q), acts, task)
            ==> ComesBack(GetByTaskId(After(Start(q), acts).q, task), cs)
    ensures IntrudersStay(Start(q), acts, task)
            ==> (ComesBack(GetByTaskId(After(Start(q), acts).q, task), cs)
                 <==> (cs == [] || '-' !in task) && !Intrudes(Start(q), acts, task))
  {
    assert !Intruded(Start(q).q, task);
    hide *;
    ComesBackIff(q, acts, task, cs);
    IntrudedByPushes(Start(q), acts, task);
  }

  // ---------------------------------------------------------------- tasks that are mixed up

  /** A task without '-' is mixed up as soon as another one's ID goes on from it with a '-': looking it up returns the commands of both. */
  lemma PrefixTaskIntrudes(q: Queue, t: string, u: string, c: MotionCommand, d: MotionCommand)
    requires Unused(q) && q.running && q.maxSize >= 2
    requires '-' !in t && u != t && ExtractTaskId(u) == t && c.id == CommandId(t, 0) && d.id == CommandId(u, 0)
    ensures var acts := [PushOne(c), PushOne(d)];
            && IsRun(Start(q), acts) && SparesAll(Start(q), acts, t) && OwnPushes(acts, t) == [c]
            && GetByTaskId(After(Start(q), acts).q, t) == Some([c, d])
  {
    hide *;
    PrefixStamps(t, u, c.id, d.id);
    var q1 := FirstPushed(q, c);
    var q2 := SecondPushed(q1, c, d);
    SparedPushes(q, c, d, t);
    GetByTaskIdIsFilter(q2, [c, d], t);
    BothOfTask(c, d, t);
    assert GetByTaskId(q2, t) == Some([c, d]);
  }

  lemma PrefixStamps(t: string, u: string, i: string, j: string)
    requires '-' !in t && u != t && ExtractTaskId(u) == t && i == CommandId(t, 0) && j == CommandId(u, 0)
    ensures i != j && IsOwn(i, t) && !IsOwn(j, t) && ExtractTaskId(i) == t && ExtractTaskId(j) == t
  {
    hide CommandId, ExtractTaskId;
    ForeignStampIff(t, t, 0);
    ForeignStampIff(t, u, 0);
    ExtractFromCommandId(t, 0);
    ExtractFromCommandId(u, 0);
  }

  lemma BothOfTask(c: MotionCommand, d: MotionCommand, task: string)
    requires ExtractTaskId(c.id) == task && ExtractTaskId(d.id) == task
    ensures OfTask([c, d], task) == [c, d]
  {
    hide ExtractTaskId;
    assert [c, d][1..] == [d] && [d][1..] == [];
    assert OfTask([d], task) == [d] + OfTask([], task);
  }

  lemma SparedPushes(q: Queue, c: MotionCommand, d: MotionCommand, task: string)
    requires IsOwn(c.id, task) && !IsOwn(d.id, task)
    requires Push(q, c).1 == Queued && d.id !in Push(q, c).0.commands
    ensures var acts := [PushOne(c), PushOne(d)];
            && IsRun(Start(q), acts) && After(Start(q), acts).q == Push(Push(q, c).0, d).0
            && SparesAll(Start(q), acts, task) && OwnPushes(acts, task) == [c]
  {
    var s0, first, second := Start(q), PushOne(c), PushOne(d);
    var s1 := Next(s0, first);
    assert s1.q == Push(q, c).0 && Next(s1, second).q == Push(s1.q, d).0;
    assert Spares(s0, first, task) && Spares(s1, second, task) by { hide IsOwn; }
    hide IsOwn, Spares, Next, Push;
    assert [first, second][1..] == [second] && [second][1..] == [];
    RunOfTwo(s0, first, second, task);
    assert OwnPushes([second], task) == OwnPushes([], task);
  }

  lemma RunOfTwo(s: System, first: Action, second: Action, task: string)
    requires Enabled(s, first) && Spares(s, first, task)
    requires Enabled(Next(s, first), second) && Spares(Next(s, first), second, task)
    ensures IsRun(s, [first, second]) && SparesAll(s, [first, second], task)
    ensures After(s, [first, second]) == Next(Next(s, first), second)
  {
    hide Next, Spares, Enabled;
    var s1, s2 := Next(s, first), Next(Next(s, first), second);
    assert [first, second][1..] == [second] && [second][1..] == [];
    assert IsRun(s2, []) && SparesAll(s2, [], task) && After(s2, []) == s2;
    assert IsRun(s1, [second]) && SparesAll(s1, [second], task) && After(s1, [second]) == s2;
  }

  lemma FirstPushed(q: Queue, c: MotionCommand) returns (q1: Queue)
    requires Unused(q) && q.running && q.maxSize >= 2
    ensures Push(q, c) == (q1, Queued) && Agrees(q1, [c])
    ensures q1.running && q1.maxSize >= 2 && q1.commands == map[c.id := NewEntry(c)]
    ensures |q1.sendChan| == 1 && q1.taskCommands.Keys == {ExtractTaskId(c.id)}
  {
    q1 := Push(q, c).0;
    assert q1.commands == map[c.id := NewEntry(c)];
    assert Agrees(q, []);
    hide Agrees, ExtractTaskId;
    PushQueued(q, [], c);
    assert [] + [c] == [c];
  }

  lemma SecondPushed(q1: Queue, c: MotionCommand, d: MotionCommand) returns (q2: Queue)
    requires q1.running && q1.maxSize >= 2 && q1.commands == map[c.id := NewEntry(c)] && |q1.sendChan| == 1
    requires Agrees(q1, [c]) && c.id != d.id
    ensures Push(q1, d) == (q2, Queued) && Agrees(q2, [c, d])
    ensures c.id in q2.commands && ExtractTaskId(d.id) in q2.taskCommands
  {
    hide Agrees, ExtractTaskId;
    q2 := Push(q1, d).0;
    PushQueued(q1, [c], d);
    assert [c] + [d] == [c, d];
  }

  /** Among stamped commands the foreign ones are those of a longer task ID that goes on from this one with a '-'. */
  lemma ForeignStampIff(t: string, u: string, j: nat)
    ensures IsOwn(CommandId(u, j), t) <==> u == t
    ensures IsForeign(CommandId(u, j), t) <==> u != t && ExtractTaskId(u) == t
  {
    ExtractFromCommandId(u, j);
    if i: nat :| CommandId(u, j) == CommandId(t, i) { CommandIdInjective(u, j, t, i); }
  }

  /** With a '-' in its ID a task is not found under it, and its commands share a list with those of every task of the same beginning. */
  lemma DashedTasksShare(q: Queue, l: seq<MotionCommand>, t: string, u: string, i: nat, j: nat)
    requires Agrees(q, l) && '-' in t && ExtractTaskId(t) == ExtractTaskId(u)
    requires CommandId(t, i) in q.commands && CommandId(u, j) in q.commands
    ensures GetByTaskId(q, t) == None || GetByTaskId(q, t) == Some([])
    ensures CommandId(t, i) in ListOf(q.taskCommands, ExtractTaskId(t))
    ensures CommandId(u, j) in ListOf(q.taskCommands, ExtractTaskId(t))
  {
    var task := ExtractTaskId(t);
    ExtractFromCommandId(t, i);
    ExtractFromCommandId(u, j);
    assert ListOf(q.taskCommands, task) == IdsOf(l, task);
    IdsOfHas(l, task, CommandId(t, i));
    IdsOfHas(l, task, CommandId(u, j));
    GetByTaskIdIsFilter(q, l, t);
    NoneOfDashed(l, t);
  }
}
