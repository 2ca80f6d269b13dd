/**
 The table of active tasks. While no task is scheduled twice, every entry is a task that runs
 or is paused and that its own watcher can still end. When also no two tasks share an ID,
 and only then, the table holds all running tasks and what has ended never changes again.
 */
module ActiveTasks {
  import opened Wrappers
  import opened Tasks
  import opened SchedulerModel
  import opened SchedulerRuns
  import opened SchedulerFates

  // No task has been scheduled twice.
  ghost predicate AllOnce(y: System) {
    forall t :: t in y.log.scheduled ==> y.log.scheduled[t] == 1
  }

  // No two tasks that were scheduled share an ID.
  ghost predicate OwnIds(y: System) {
    forall t, u :: t in y.log.scheduled && u in y.log.scheduled && t.id == u.id ==> t == u
  }

  // What the scheduler knows is what was scheduled; entries stand under their own IDs, and
  // whoever has a watcher was dispatched and is watched in its own context.
  ghost predicate Known(y: System) {
    && (forall t :: t in y.log.scheduled ==> t in y.s.progress)
    && (forall t :: t in y.s.progress ==> t in y.log.scheduled)
    && (forall id :: id in y.s.active ==> y.s.active[id].id == id && y.s.active[id] in y.s.progress)
    && (forall w :: w in y.s.watchers ==> Watched(y, w.0, w.1))
  }

  ghost predicate Watched(y: System, t: Task, c: nat) {
    t in y.s.progress && y.log.dispatched[t] > 0 && t in y.s.cancelFuncs && y.s.cancelFuncs[t] == c
  }

  predicate Ended(p: Progress) {
    p.status == Completed || p.status == Failed || p.status == Cancelled
  }

  // An active task has been dispatched and has neither ended nor lost its watcher.
  ghost predicate Working(y: System, t: Task) {
    && y.log.dispatched[t] > 0
    && (Of(y.s, t).status == Running || Of(y.s, t).status == Paused)
    && t in y.s.cancelFuncs && y.s.cancelFuncs[t] < |y.s.contexts|
    && y.s.contexts[y.s.cancelFuncs[t]] != Stopped
    && (t, y.s.cancelFuncs[t]) in y.s.watchers
  }

  ghost predicate AllWorking(y: System) {
    forall id :: id in y.s.active ==> Working(y, y.s.active[id])
  }

  // Every task has a context of its own.
  ghost predicate OwnContexts(y: System) {
    && (forall t :: t in y.s.cancelFuncs ==> y.s.cancelFuncs[t] < |y.s.contexts|)
    && (forall t, u :: t in y.s.cancelFuncs && u in y.s.cancelFuncs && t != u ==> y.s.cancelFuncs[t] != y.s.cancelFuncs[u])
  }

  // A task that is past pending has been through the loop.
  ghost predicate AllBegun(y: System) {
    forall t :: t in y.s.progress && y.s.progress[t].status != Pending ==> y.log.dispatched[t] + y.log.rejected[t] > 0
  }

  ghost predicate Inv(y: System) {
    Known(y) && AllWorking(y) && OwnContexts(y) && AllBegun(y)
  }

  // What conservation says of the task in the loop's hands: it has not been through before.
  lemma HeldIsNew(y: System)
    requires Known(y) && AllOnce(y) && y.held.Some? && Conserved(y, y.held.value)
    ensures y.held.value in y.s.progress
    ensures y.log.dispatched[y.held.value] == 0 && y.log.rejected[y.held.value] == 0
  {
    var t := y.held.value;
    assert Held(y)[t] == 1;
    assert y.log.scheduled[t] > 0;
  }

  lemma NewToSchedule(y: System, t: Task, was: Progress)
    requires Known(y) && AllOnce(Scheduled(y, t, was)) && y.s.running
    ensures t !in y.s.progress && y.log.scheduled[t] == 0
  {
    assert t in Scheduled(y, t, was).log.scheduled;
  }

  lemma KnownSchedule(y: System, t: Task, was: Progress)
    requires Known(y) && AllBegun(y) && (y.s.running ==> t !in y.s.progress)
    ensures Known(Scheduled(y, t, was)) && AllBegun(Scheduled(y, t, was))
  {
    hide Enqueue;
  }

  lemma WorkingSchedule(y: System, t: Task, was: Progress, u: Task)
    requires Working(y, u) && u in y.s.progress && (y.s.running ==> t !in y.s.progress)
    ensures Working(Scheduled(y, t, was), u)
  {
    hide Enqueue;
  }

  lemma InvSchedule(y: System, t: Task, was: Progress)
    requires Inv(y) && AllOnce(Scheduled(y, t, was))
    ensures Inv(Scheduled(y, t, was))
  {
    var y' := Scheduled(y, t, was);
    if y.s.running { NewToSchedule(y, t, was); }
    KnownSchedule(y, t, was);
    hide Known, AllBegun, Enqueue, Working, AllOnce;
    forall id | id in y'.s.active ensures Working(y', y'.s.active[id]) {
      ActiveUnderOwnId(y, id);
      WorkingSchedule(y, t, was, y.s.active[id]);
    }
  }

  lemma KnownExecute(y: System, now: int)
    requires Known(y) && y.held.Some? && y.held.value in y.s.progress && y.log.dispatched[y.held.value] == 0
    ensures Known(Executed(y, y.held.value, now))
  {
    var y' := Executed(y, y.held.value, now);
    assert y'.s.progress.Keys == y.s.progress.Keys;
    forall w | w in y'.s.watchers ensures Watched(y', w.0, w.1) {
      if w in y.s.watchers { assert Watched(y, w.0, w.1); }
    }
  }

  lemma OwnContextsExecute(y: System, now: int)
    requires OwnContexts(y) && y.held.Some?
    ensures OwnContexts(Executed(y, y.held.value, now))
  {
  }

  lemma BegunExecute(y: System, now: int)
    requires AllBegun(y) && y.held.Some?
    ensures AllBegun(Executed(y, y.held.value, now))
  {
  }

  lemma WorkingExecute(y: System, now: int, id: string)
    requires y.held.Some? && id != y.held.value.id && id in y.s.active && y.s.active[id].id == id
    requires Working(y, y.s.active[id])
    ensures Working(Executed(y, y.held.value, now), y.s.active[id])
  {
  }

  lemma ExecutedWorks(y: System, now: int)
    requires y.held.Some? && |y.s.taskChan| < CHANNEL_SIZE
    ensures Working(Executed(y, y.held.value, now), y.held.value)
  {
    var t, c := y.held.value, |y.s.contexts|;
    var y' := Executed(y, t, now);
    assert y'.s.watchers[|y.s.watchers|] == (t, c);
  }

  lemma InvExecute(y: System, now: int)
    requires Inv(y) && AllOnce(y) && y.held.Some? && Conserved(y, y.held.value)
    ensures Inv(Executed(y, y.held.value, now))
  {
    var t := y.held.value;
    var y' := Executed(y, t, now);
    HeldIsNew(y);
    KnownExecute(y, now);
    OwnContextsExecute(y, now);
    BegunExecute(y, now);
    hide Working, Known, OwnContexts, AllBegun, AllOnce;
    forall id | id in y'.s.active ensures Working(y', y'.s.active[id]) {
      if id != t.id {
        ActiveUnderOwnId(y, id);
        WorkingExecute(y, now, id);
      } else {
        ExecutedWorks(y, now);
      }
    }
  }

  lemma ActiveUnderOwnId(y: System, id: string)
    requires Inv(y) && id in y.s.active
    ensures y.s.active[id].id == id && y.s.active[id] in y.s.progress && Working(y, y.s.active[id])
  {
  }

  lemma BegunCancel(y: System, id: string, now: int)
    requires AllBegun(y) && OwnContexts(y)
    requires id in y.s.active ==> y.log.dispatched[y.s.active[id]] > 0
    ensures var y' := CancelledOne(y, id, now); AllBegun(y') && OwnContexts(y')
  {
    hide Withdraw;
  }

  lemma KnownCancel(y: System, id: string, now: int)
    requires Known(y)
    ensures Known(CancelledOne(y, id, now))
  {
    CancelKeeps(y, id, now);
    hide Withdraw, Stop, CancelTask;
    var y' := CancelledOne(y, id, now);
    forall w | w in y'.s.watchers ensures Watched(y', w.0, w.1) {
      assert Watched(y, w.0, w.1);
    }
  }

  lemma CancelKeeps(y: System, id: string, now: int)
    requires id in y.s.active ==> y.s.active[id] in y.s.progress
    ensures var s' := CancelTask(y.s, id, now).0;
            && s'.progress.Keys == y.s.progress.Keys && s'.watchers == y.s.watchers && s'.taskChan == y.s.taskChan
            && s'.active == y.s.active - {id} && |s'.contexts| == |y.s.contexts| && s'.cancelFuncs == y.s.cancelFuncs
            && s'.running == y.s.running
  {
    hide Withdraw;
  }

  // Cancelling one task stops only its own context.
  lemma WorkingCancel(y: System, id: string, now: int, u: Task)
    requires OwnContexts(y) && Working(y, u) && (id in y.s.active ==> y.s.active[id] != u)
    ensures Working(CancelledOne(y, id, now), u)
  {
    hide Withdraw;
  }

  lemma InvCancel(y: System, id: string, now: int)
    requires Inv(y)
    ensures Inv(CancelledOne(y, id, now))
  {
    var y' := CancelledOne(y, id, now);
    if id in y.s.active { ActiveUnderOwnId(y, id); }
    DispatchedWhenActive(y, id);
    KnownCancel(y, id, now);
    BegunCancel(y, id, now);
    hide Working, Known, OwnContexts, AllBegun, Withdraw;
    forall k | k in y'.s.active ensures Working(y', y'.s.active[k]) {
      ActiveUnderOwnId(y, k);
      WorkingCancel(y, id, now, y.s.active[k]);
    }
  }

  lemma DispatchedWhenActive(y: System, id: string)
    requires AllWorking(y)
    ensures id in y.s.active ==> y.log.dispatched[y.s.active[id]] > 0
  {
    assert id in y.s.active ==> Working(y, y.s.active[id]);
  }

  lemma KnownSetStatus(y: System, id: string, status: Status)
    requires Known(y)
    ensures Known(y.(s := SetStatus(y.s, id, status).0))
  {
    var y' := y.(s := SetStatus(y.s, id, status).0);
    assert y'.s.progress.Keys == y.s.progress.Keys;
    forall w | w in y'.s.watchers ensures Watched(y', w.0, w.1) {
      assert Watched(y, w.0, w.1);
    }
  }

  lemma BegunSetStatus(y: System, id: string, status: Status)
    requires AllBegun(y) && OwnContexts(y)
    requires id in y.s.active ==> y.log.dispatched[y.s.active[id]] > 0
    ensures var y' := y.(s := SetStatus(y.s, id, status).0); AllBegun(y') && OwnContexts(y')
  {
  }

  lemma WorkingSetStatus(y: System, id: string, status: Status, u: Task)
    requires Working(y, u) && (status == Running || status == Paused)
    ensures Working(y.(s := SetStatus(y.s, id, status).0), u)
  {
  }

  lemma InvSetStatus(y: System, id: string, status: Status)
    requires Inv(y) && (status == Running || status == Paused)
    ensures Inv(y.(s := SetStatus(y.s, id, status).0))
  {
    var y' := y.(s := SetStatus(y.s, id, status).0);
    DispatchedWhenActive(y, id);
    KnownSetStatus(y, id, status);
    BegunSetStatus(y, id, status);
    assert y'.s.active == y.s.active;
    hide Working, Known, OwnContexts, AllBegun, SetStatus;
    forall k | k in y'.s.active ensures Working(y', y'.s.active[k]) {
      ActiveUnderOwnId(y, k);
      WorkingSetStatus(y, id, status, y.s.active[k]);
    }
  }

  lemma KnownWake(y: System, i: nat, now: int)
    requires Known(y) && Enabled(y, Wake(i, now))
    ensures Known(Woken(y, i, now))
    ensures Watched(y, y.s.watchers[i].0, y.s.watchers[i].1)
  {
    var y' := Woken(y, i, now);
    assert y.s.watchers[i] in y.s.watchers;
    assert y'.s.progress.Keys == y.s.progress.Keys;
    forall w | w in y'.s.watchers ensures Watched(y', w.0, w.1) {
      assert w in y.s.watchers;
      assert Watched(y, w.0, w.1);
    }
  }

  // The watcher of another task is still there when one watcher has woken up.
  lemma WorkingWake(y: System, i: nat, now: int, u: Task)
    requires Enabled(y, Wake(i, now)) && Working(y, u) && y.s.watchers[i].0 != u
    ensures Working(Woken(y, i, now), u)
  {
    var rest := y.s.watchers[..i] + y.s.watchers[i + 1..];
    var w := (u, y.s.cancelFuncs[u]);
    var j :| 0 <= j < |y.s.watchers| && y.s.watchers[j] == w;
    assert rest[if j < i then j else j - 1] == w;
  }

  lemma BegunWake(y: System, i: nat, now: int)
    requires AllBegun(y) && Enabled(y, Wake(i, now))
    requires var t := y.s.watchers[i].0; t.id in y.s.active ==> y.log.dispatched[t] > 0
    ensures AllBegun(Woken(y, i, now))
  {
  }

  lemma InvWake(y: System, i: nat, now: int)
    requires Inv(y) && Enabled(y, Wake(i, now))
    ensures Inv(Woken(y, i, now))
  {
    var y' := Woken(y, i, now);
    var t := y.s.watchers[i].0;
    KnownWake(y, i, now);
    BegunWake(y, i, now);
    assert OwnContexts(y');
    hide Known, AllBegun, OwnContexts, Working;
    forall k | k in y'.s.active ensures Working(y', y'.s.active[k]) {
      ActiveUnderOwnId(y, k);
      assert k != t.id;
      WorkingWake(y, i, now, y.s.active[k]);
    }
  }

  /** The timer's clean-up finds nothing to delete: no active task has ended. */
  lemma TickDeletesNothing(y: System, now: int)
    requires AllWorking(y)
    ensures ProcessQueues(y.s, now) == y.s
  {
    assert forall id :: id in y.s.active ==> Working(y, y.s.active[id]);
    assert Swept(y.s, now) == {};
  }

  lemma InvRest(y: System, act: Action)
    requires act.Take? || act.Receive? || act.Expire?
    requires Inv(y) && Enabled(y, act)
    ensures Inv(Next(y, act))
  {
    var y' := Next(y, act);
    forall id | id in y'.s.active ensures Working(y', y'.s.active[id]) {
      assert Working(y, y.s.active[id]);
    }
  }

  lemma InvStep(y: System, act: Action)
    requires Inv(y) && Enabled(y, act) && AllOnce(y) && AllOnce(Next(y, act))
    requires act.Execute? ==> Conserved(y, y.held.value)
    ensures Inv(Next(y, act))
  {
    hide Inv, Scheduled, Executed, CancelledOne, Woken, Taken, SetStatus, ProcessQueues, AllOnce;
    match act
    case Schedule(t, was) => InvSchedule(y, t, was);
    case Execute(now) => InvExecute(y, now);
    case Cancel(id, now) => InvCancel(y, id, now);
    case Pause(id) => InvSetStatus(y, id, Paused);
    case Resume(id) => InvSetStatus(y, id, Running);
    case Wake(i, now) => InvWake(y, i, now);
    case Tick(now) => assert AllWorking(y) by { InvWorks(y); } TickDeletesNothing(y, now);
    case _ => InvRest(y, act);
  }

  lemma InvWorks(y: System)
    requires Inv(y)
    ensures AllWorking(y)
  {
  }

  // ---------------------------------------------------------------- over whole runs

  lemma {:induction false} Extend(y: System, acts: seq<Action>, act: Action)
    requires IsRun(y, acts) && Enabled(After(y, acts), act)
    ensures IsRun(y, acts + [act]) && After(y, acts + [act]) == Next(After(y, acts), act)
    decreases acts
  {
    if acts == [] {
      assert (acts + [act])[1..] == [];
    } else {
      assert (acts + [act])[1..] == acts[1..] + [act];
      Extend(Next(y, acts[0]), acts[1..], act);
    }
  }

  lemma {:induction false} RunAppend(y: System, a: seq<Action>, b: seq<Action>)
    requires IsRun(y, a) && IsRun(After(y, a), b)
    ensures IsRun(y, a + b) && After(y, a + b) == After(After(y, a), b)
    decreases a
  {
    hide Enabled, Next;
    if a == [] {
      assert a + b == b;
    } else {
      assert (a + b)[1..] == a[1..] + b;
      RunAppend(Next(y, a[0]), a[1..], b);
    }
  }

  // What was scheduled stays on record.
  lemma {:induction false} ScheduledGrows(y: System, acts: seq<Action>)
    requires IsRun(y, acts)
    ensures y.log.scheduled <= After(y, acts).log.scheduled
    decreases acts
  {
    if acts != [] {
      ScheduledGrowsOne(y, acts[0]);
      ScheduledGrows(Next(y, acts[0]), acts[1..]);
    }
  }

  lemma ScheduledGrowsOne(y: System, act: Action)
    requires Enabled(y, act)
    ensures y.log.scheduled <= Next(y, act).log.scheduled
  {
    hide Withdraw, Enqueue, GetNextTask, SetStatus, ProcessQueues, Watch, ExecuteTask, CancelTask;
  }

  lemma OnceBefore(y: System, acts: seq<Action>)
    requires IsRun(y, acts) && AllOnce(After(y, acts))
    ensures AllOnce(y)
  {
    ScheduledGrows(y, acts);
    var late := After(y, acts);
    forall t | t in y.log.scheduled ensures y.log.scheduled[t] == 1 {
      assert y.log.scheduled[t] <= late.log.scheduled[t];
      assert t in late.log.scheduled;
    }
  }

  lemma InvStepAfter(past: seq<Action>, act: Action)
    requires IsRun(Start(), past) && Enabled(After(Start(), past), act)
    requires Inv(After(Start(), past)) && AllOnce(Next(After(Start(), past), act))
    ensures Inv(Next(After(Start(), past), act)) && AllOnce(After(Start(), past))
    ensures act.Execute? ==> Conserved(After(Start(), past), After(Start(), past).held.value)
  {
    var y := After(Start(), past);
    assert IsRun(Next(y, act), []) && IsRun(y, [act]) && After(y, [act]) == Next(y, act) by { assert [act][1..] == []; }
    hide IsRun, After, Next, Inv, AllOnce;
    OnceBefore(y, [act]);
    if act.Execute? { TasksAreConserved(Start(), past, y.held.value); }
    InvStep(y, act);
  }

  lemma {:induction false} InvRun(past: seq<Action>, acts: seq<Action>)
    requires IsRun(Start(), past) && Inv(After(Start(), past))
    requires IsRun(After(Start(), past), acts) && AllOnce(After(After(Start(), past), acts))
    ensures Inv(After(After(Start(), past), acts))
    decreases acts
  {
    hide Inv, Next, Enabled, Start, AllOnce;
    if acts != [] {
      var y := After(Start(), past);
      Extend(Start(), past, acts[0]);
      OnceBefore(Next(y, acts[0]), acts[1..]);
      InvStepAfter(past, acts[0]);
      InvRun(past + [acts[0]], acts[1..]);
    }
  }

  lemma InvFromStart(acts: seq<Action>)
    requires IsRun(Start(), acts) && AllOnce(After(Start(), acts))
    ensures Inv(After(Start(), acts))
  {
    assert Inv(Start());
    assert IsRun(Start(), []) && After(Start(), []) == Start();
    hide Inv, AllOnce;
    InvRun([], acts);
  }

  // ---------------------------------------------------------------- what the entries are

  // Each entry stands under its own ID and is running or paused, its watcher is there to end it, and the clean-up finds nothing.
  ghost predicate EntriesHold(s: Scheduler) {
    && (forall id :: id in s.active ==>
          var t := s.active[id];
          && t.id == id && t in s.progress && (s.progress[t].status == Running || s.progress[t].status == Paused)
          && t in s.cancelFuncs && (t, s.cancelFuncs[t]) in s.watchers)
    && (forall now :: ProcessQueues(s, now) == s)
  }

  /** Over every run that schedules no task twice, whatever IDs the tasks have, the entries of the table hold what they promise. */
  lemma ActiveTasksRun(acts: seq<Action>)
    requires IsRun(Start(), acts) && AllOnce(After(Start(), acts))
    ensures EntriesHold(After(Start(), acts).s)
  {
    InvFromStart(acts);
    var y := After(Start(), acts);
    forall id | id in y.s.active
      ensures y.s.active[id].id == id && y.s.active[id] in y.s.progress && Working(y, y.s.active[id])
    {
      ActiveUnderOwnId(y, id);
    }
    forall now ensures ProcessQueues(y.s, now) == y.s {
      TickDeletesNothing(y, now);
    }
  }

  const UNTOUCHED := Progress(Pending, None, None, None)

  // A task is scheduled, taken and dispatched.
  function Dispatch(t: Task): seq<Action> {
    [Schedule(t, UNTOUCHED)] + [Take] + [Execute(0)]
  }

  lemma AfterDispatch(t: Task) returns (y: System)
    ensures IsRun(Start(), Dispatch(t)) && y == After(Start(), Dispatch(t))
    ensures y.s.queues == Queues([], [], [], []) && y.held == None && y.s.active == map[t.id := t] && y.s.running
    ensures y.s.contexts == [Live] && y.s.watchers == [(t, 0)] && |y.s.taskChan| == 1 && y.s.cancelFuncs == map[t := 0]
    ensures y.s.progress == map[t := Progress(Running, Some(0), None, None)]
    ensures y.log.scheduled == multiset{t}
  {
    var y0 := Start();
    var acts: seq<Action> := [];
    assert IsRun(y0, acts) && After(y0, acts) == y0;
    hide IsRun, After;
    Extend(y0, acts, Schedule(t, UNTOUCHED));
    assert acts + [Schedule(t, UNTOUCHED)] == [Schedule(t, UNTOUCHED)];
    acts := [Schedule(t, UNTOUCHED)];
    Extend(y0, acts, Take);
    Extend(y0, acts + [Take], Execute(0));
    y := After(y0, Dispatch(t));
  }

  // A task that is scheduled again while it runs.
  function Again(t: Task): seq<Action> {
    Dispatch(t) + [Schedule(t, UNTOUCHED)]
  }

  lemma AgainPending(t: Task) returns (y: System)
    ensures IsRun(Start(), Again(t)) && y == After(Start(), Again(t))
    ensures y.log.scheduled == multiset{t, t} && t.id in y.s.active && y.s.active[t.id] == t
    ensures t in y.s.progress && y.s.progress[t].status == Pending
  {
    y := AfterDispatch(t);
    hide IsRun, After, Start, Dispatch, Enqueue;
    Extend(Start(), Dispatch(t), Schedule(t, UNTOUCHED));
    y := Next(y, Schedule(t, UNTOUCHED));
  }

  lemma AgainBreaksEntry(t: Task)
    ensures IsRun(Start(), Again(t))
    ensures After(Start(), Again(t)).log.scheduled == multiset{t, t} && !EntriesHold(After(Start(), Again(t)).s)
  {
    var y := AgainPending(t);
    hide IsRun, After, Again, Start, ProcessQueues;
  }

  // No task was scheduled more than so many times.
  ghost predicate AtMost(scheduled: multiset<Task>, n: nat) {
    forall t :: t in scheduled ==> scheduled[t] <= n
  }

  /** The entries hold what they promise, over all runs that schedule each task at most n times, exactly when n is at most 1. */
  lemma EntriesIff(n: nat, some: Task)
    ensures (forall acts :: IsRun(Start(), acts) && AtMost(After(Start(), acts).log.scheduled, n) ==> EntriesHold(After(Start(), acts).s))
       <==> n <= 1
  {
    if n <= 1 {
      forall acts | IsRun(Start(), acts) && AtMost(After(Start(), acts).log.scheduled, n) ensures EntriesHold(After(Start(), acts).s) {
        hide IsRun, After, EntriesHold;
        ActiveTasksRun(acts);
      }
    } else {
      hide IsRun, After, EntriesHold;
      AgainBreaksEntry(some);
      assert AtMost(multiset{some, some}, n);
    }
  }

  // ---------------------------------------------------------------- the table holds all running tasks

  ghost predicate TableComplete(y: System) {
    forall t :: t in y.s.progress && (y.s.progress[t].status == Running || y.s.progress[t].status == Paused)
      ==> t.id in y.s.active && y.s.active[t.id] == t
  }

  // With IDs of their own, tasks are alone under their entries.
  lemma AloneUnderId(y: System, t: Task)
    requires Inv(y) && OwnIds(y) && t in y.s.progress && t.id in y.s.active
    ensures y.s.active[t.id] == t
  {
  }

  lemma CompleteExecute(y: System, now: int)
    requires Inv(y) && OwnIds(y) && TableComplete(y) && y.held.Some? && y.held.value in y.s.progress
    ensures TableComplete(Executed(y, y.held.value, now))
  {
    hide AllWorking, OwnContexts, AllBegun;
  }

  // The watcher of an active task can only have woken because its time ran out.
  lemma ExpiredWhenActive(y: System, i: nat, now: int)
    requires Inv(y) && OwnIds(y) && Enabled(y, Wake(i, now))
    ensures var (t, c) := y.s.watchers[i]; t.id in y.s.active ==> y.s.active[t.id] == t && y.s.contexts[c] == Expired
  {
    var (t, c) := y.s.watchers[i];
    KnownWake(y, i, now);
    if t.id in y.s.active {
      AloneUnderId(y, t);
      assert Working(y, t);
    }
  }

  lemma CompleteWake(y: System, i: nat, now: int)
    requires Inv(y) && OwnIds(y) && TableComplete(y) && Enabled(y, Wake(i, now))
    ensures TableComplete(Woken(y, i, now))
  {
    ExpiredWhenActive(y, i, now);
    hide Inv, OwnIds;
  }

  lemma CompleteByCaller(y: System, act: Action)
    requires act.Cancel? || act.Pause? || act.Resume?
    requires Inv(y) && TableComplete(y)
    ensures TableComplete(Next(y, act))
  {
    hide AllWorking, OwnContexts, AllBegun, Withdraw;
  }

  lemma CompleteStep(y: System, act: Action)
    requires Inv(y) && OwnIds(y) && TableComplete(y) && Enabled(y, act)
    requires act.Execute? ==> y.held.value in y.s.progress
    ensures TableComplete(Next(y, act))
  {
    match act
    case Schedule(t, was) =>
      hide Inv, OwnIds, Enqueue;
    case Execute(now) => CompleteExecute(y, now);
    case Wake(i, now) => CompleteWake(y, i, now);
    case Tick(now) =>
      InvWorks(y);
      TickDeletesNothing(y, now);
    case Cancel(id, now) => CompleteByCaller(y, act);
    case Pause(id) => CompleteByCaller(y, act);
    case Resume(id) => CompleteByCaller(y, act);
    case _ =>
  }

  lemma OwnIdsBefore(y: System, acts: seq<Action>)
    requires IsRun(y, acts) && OwnIds(After(y, acts))
    ensures OwnIds(y)
  {
    ScheduledGrows(y, acts);
    hide IsRun, After;
    var late := After(y, acts);
    forall t | t in y.log.scheduled ensures t in late.log.scheduled {
      assert y.log.scheduled[t] <= late.log.scheduled[t];
    }
  }

  lemma {:induction false} TableRun(past: seq<Action>, acts: seq<Action>)
    requires IsRun(Start(), past) && Inv(After(Start(), past)) && TableComplete(After(Start(), past))
    requires IsRun(After(Start(), past), acts)
    requires AllOnce(After(After(Start(), past), acts)) && OwnIds(After(After(Start(), past), acts))
    ensures TableComplete(After(After(Start(), past), acts))
    decreases acts
  {
    hide Inv, Next, Enabled, Start, AllOnce, OwnIds, TableComplete, Conserved;
    if acts != [] {
      var y := After(Start(), past);
      Extend(Start(), past, acts[0]);
      OnceBefore(Next(y, acts[0]), acts[1..]);
      OwnIdsBefore(y, acts);
      InvStepAfter(past, acts[0]);
      TableStepAfter(y, acts[0]);
      TableRun(past + [acts[0]], acts[1..]);
    }
  }

  lemma TableStepAfter(y: System, act: Action)
    requires Inv(y) && AllOnce(y) && OwnIds(y) && TableComplete(y) && Enabled(y, act)
    requires act.Execute? ==> Conserved(y, y.held.value)
    ensures TableComplete(Next(y, act))
  {
    if act.Execute? { HeldIsNew(y); }
    hide Inv, AllOnce, OwnIds, TableComplete, Next, Conserved;
    CompleteStep(y, act);
  }

  // ---------------------------------------------------------------- what has ended stays as it is

  lemma EndedNotActive(y: System, t: Task, id: string)
    requires AllWorking(y) && t in y.s.progress && Ended(y.s.progress[t])
    ensures id in y.s.active ==> y.s.active[id] != t
  {
    assert id in y.s.active ==> Working(y, y.s.active[id]);
  }

  lemma EndedExecute(y: System, now: int, t: Task)
    requires Inv(y) && AllOnce(y) && y.held.Some? && Conserved(y, y.held.value)
    requires t in y.s.progress && Ended(y.s.progress[t])
    ensures t in Executed(y, y.held.value, now).s.progress
    ensures Executed(y, y.held.value, now).s.progress[t] == y.s.progress[t]
  {
    HeldIsNew(y);
    hide Known, AllWorking, OwnContexts, Conserved, AllOnce;
    assert y.held.value != t;
  }

  lemma EndedWake(y: System, i: nat, now: int, t: Task)
    requires Inv(y) && OwnIds(y) && Enabled(y, Wake(i, now))
    requires t in y.s.progress && Ended(y.s.progress[t])
    ensures t in Woken(y, i, now).s.progress && Woken(y, i, now).s.progress[t] == y.s.progress[t]
  {
    ExpiredWhenActive(y, i, now);
    EndedNotActive(y, t, y.s.watchers[i].0.id);
    hide Inv, OwnIds, Ended;
  }

  lemma EndedByCaller(y: System, act: Action, t: Task)
    requires act.Cancel? || act.Pause? || act.Resume?
    requires Inv(y)
    requires t in y.s.progress && Ended(y.s.progress[t])
    ensures t in Next(y, act).s.progress && Next(y, act).s.progress[t] == y.s.progress[t]
  {
    EndedNotActive(y, t, act.id);
    hide Inv, Withdraw, Ended;
  }

  lemma EndedSchedule(y: System, u: Task, was: Progress, t: Task)
    requires Inv(y) && AllOnce(Scheduled(y, u, was)) && t in y.s.progress
    ensures t in Scheduled(y, u, was).s.progress && Scheduled(y, u, was).s.progress[t] == y.s.progress[t]
  {
    if y.s.running { NewToSchedule(y, u, was); }
    hide Inv, AllOnce, Enqueue;
  }

  lemma EndedStep(y: System, act: Action, t: Task)
    requires Inv(y) && AllOnce(y) && OwnIds(y) && Enabled(y, act) && AllOnce(Next(y, act))
    requires act.Execute? ==> Conserved(y, y.held.value)
    requires t in y.s.progress && Ended(y.s.progress[t])
    ensures t in Next(y, act).s.progress && Next(y, act).s.progress[t] == y.s.progress[t]
  {
    hide Inv, AllOnce, OwnIds, Ended, Scheduled, Executed, Woken, Conserved;
    match act
    case Schedule(u, was) => EndedSchedule(y, u, was, t);
    case Execute(now) => EndedExecute(y, now, t);
    case Wake(i, now) => EndedWake(y, i, now, t);
    case Cancel(id, now) => EndedByCaller(y, act, t);
    case Pause(id) => EndedByCaller(y, act, t);
    case Resume(id) => EndedByCaller(y, act, t);
    case _ =>
  }

  lemma {:induction false} EndedRun(past: seq<Action>, acts: seq<Action>, t: Task)
    requires IsRun(Start(), past) && Inv(After(Start(), past))
    requires IsRun(After(Start(), past), acts)
    requires AllOnce(After(After(Start(), past), acts)) && OwnIds(After(After(Start(), past), acts))
    requires t in After(Start(), past).s.progress && Ended(After(Start(), past).s.progress[t])
    ensures t in After(After(Start(), past), acts).s.progress
    ensures After(After(Start(), past), acts).s.progress[t] == After(Start(), past).s.progress[t]
    decreases acts
  {
    hide Inv, Next, Enabled, Start, Ended, AllOnce, OwnIds, Conserved;
    if acts != [] {
      var y := After(Start(), past);
      Extend(Start(), past, acts[0]);
      OnceBefore(Next(y, acts[0]), acts[1..]);
      OwnIdsBefore(y, acts);
      InvStepAfter(past, acts[0]);
      EndedStep(y, acts[0], t);
      EndedRun(past + [acts[0]], acts[1..], t);
    }
  }

  // A task that has ended after a first part of a run keeps its status, its error and its times in the rest of it.
  ghost predicate Keeps(y: System, late: System, t: Task) {
    t in y.s.progress && Ended(y.s.progress[t]) ==> t in late.s.progress && late.s.progress[t] == y.s.progress[t]
  }

  /** Over every run that schedules no task and no ID twice, a task that has ended stays as it is: no watcher overwrites a cancelled task. */
  lemma EndedForGood(past: seq<Action>, acts: seq<Action>, t: Task)
    requires IsRun(Start(), past) && IsRun(After(Start(), past), acts)
    requires AllOnce(After(After(Start(), past), acts)) && OwnIds(After(After(Start(), past), acts))
    ensures Keeps(After(Start(), past), After(After(Start(), past), acts), t)
  {
    var y := After(Start(), past);
    hide IsRun, After, Inv, AllOnce, OwnIds, Ended;
    OnceBefore(y, acts);
    InvFromStart(past);
    if t in y.s.progress && Ended(y.s.progress[t]) { EndedRun(past, acts, t); }
  }

  /** Over every run that schedules no task and no ID twice, every task that runs or is paused is in the table, under its ID. */
  lemma TableHoldsRunning(acts: seq<Action>)
    requires IsRun(Start(), acts) && AllOnce(After(Start(), acts)) && OwnIds(After(Start(), acts))
    ensures TableComplete(After(Start(), acts))
  {
    assert Inv(Start()) && TableComplete(Start());
    assert IsRun(Start(), []) && After(Start(), []) == Start();
    hide Inv, AllOnce, OwnIds, TableComplete;
    TableRun([], acts);
  }

  /** A task that was scheduled once has exactly one fate: queued, in the loop's hands, removed, rejected or dispatched. */
  lemma OneFate(acts: seq<Action>, t: Task)
    requires IsRun(Start(), acts) && After(Start(), acts).log.scheduled[t] == 1
    ensures var y := After(Start(), acts);
            Queued(y.s.queues)[t] + Held(y)[t] + y.log.removed[t] + y.log.rejected[t] + y.log.dispatched[t] == 1
  {
    TasksAreConserved(Start(), acts, t);
  }

  // ---------------------------------------------------------------- what reused IDs do

  // A task is cancelled after its time ran out; its watcher has not woken up yet.
  function CancelledLate(a: Task): seq<Action> {
    Dispatch(a) + [Expire(0)] + [Cancel(a.id, 1)]
  }

  // Another task of the same ID is running when the watcher of the first one does.
  function WatcherWakes(b: Task): seq<Action> {
    [Schedule(b, UNTOUCHED)] + [Take] + [Execute(2)] + [Wake(0, 3)]
  }

  lemma AfterCancelledLate(a: Task) returns (y: System)
    ensures IsRun(Start(), CancelledLate(a)) && y == After(Start(), CancelledLate(a))
    ensures y.s.queues == Queues([], [], [], []) && y.held == None && y.s.active == map[] && y.s.running
    ensures y.s.contexts == [Expired] && y.s.watchers == [(a, 0)] && |y.s.taskChan| == 1
    ensures a in y.s.progress && y.s.progress.Keys == {a} && y.s.progress[a].status == Cancelled
    ensures y.log.scheduled == multiset{a}
  {
    var y1 := AfterDispatch(a);
    hide IsRun, After, Start, Dispatch, Withdraw;
    Extend(Start(), Dispatch(a), Expire(0));
    var y2 := Next(y1, Expire(0));
    assert y2.s.contexts == [Expired];
    Extend(Start(), Dispatch(a) + [Expire(0)], Cancel(a.id, 1));
    y := Next(y2, Cancel(a.id, 1));
  }

  lemma AfterWatcherWakes(y: System, a: Task, b: Task) returns (late: System)
    requires a != b && a.id == b.id
    requires y.s.queues == Queues([], [], [], []) && y.held == None && y.s.active == map[] && y.s.running
    requires y.s.contexts == [Expired] && y.s.watchers == [(a, 0)] && |y.s.taskChan| == 1
    requires a in y.s.progress && y.s.progress.Keys == {a}
    ensures IsRun(y, WatcherWakes(b)) && late == After(y, WatcherWakes(b))
    ensures late.log.scheduled == y.log.scheduled + multiset{b}
    ensures a in late.s.progress && late.s.progress[a].status == Failed
    ensures b in late.s.progress && late.s.progress[b].status == Running && b.id !in late.s.active
  {
    var acts: seq<Action> := [];
    assert IsRun(y, acts) && After(y, acts) == y;
    hide IsRun, After, Withdraw, Find, Remove, Swept;
    Extend(y, acts, Schedule(b, UNTOUCHED));
    assert acts + [Schedule(b, UNTOUCHED)] == [Schedule(b, UNTOUCHED)];
    acts := [Schedule(b, UNTOUCHED)];
    var y1 := Next(y, Schedule(b, UNTOUCHED));
    Extend(y, acts, Take);
    acts := acts + [Take];
    var y2 := Next(y1, Take);
    assert y2.held == Some(b) && y2.s.active == map[] && y2.s.watchers == [(a, 0)];
    Extend(y, acts, Execute(2));
    acts := acts + [Execute(2)];
    Extend(y, acts, Wake(0, 3));
    late := After(y, WatcherWakes(b));
  }

  /** With a reused ID both guarantees fail: a cancelled task is overwritten as failed, and the running task of the same ID drops out of the active table. */
  lemma ReusedIdLosesTask(a: Task, b: Task)
    requires a != b && a.id == b.id
    ensures IsRun(Start(), CancelledLate(a)) && IsRun(After(Start(), CancelledLate(a)), WatcherWakes(b))
    ensures var y := After(Start(), CancelledLate(a));
            var late := After(y, WatcherWakes(b));
            late.log.scheduled == multiset{a, b} && !Keeps(y, late, a) && !TableComplete(late)
  {
    var y := AfterCancelledLate(a);
    hide IsRun, After, CancelledLate, WatcherWakes, Start;
    var late := AfterWatcherWakes(y, a, b);
  }

  // Among some tasks, no two share an ID.
  ghost predicate DistinctIds(tasks: set<Task>) {
    forall a, b :: a in tasks && b in tasks && a.id == b.id ==> a == b
  }

  lemma DrawnFrom(y: System, tasks: set<Task>)
    requires y.log.scheduled <= multiset(tasks)
    ensures AllOnce(y) && (DistinctIds(tasks) ==> OwnIds(y))
  {
    forall t | t in y.log.scheduled ensures y.log.scheduled[t] == 1 && t in tasks {
      assert y.log.scheduled[t] <= multiset(tasks)[t];
    }
  }

  /** Whatever has ended stays as it is, over all runs that schedule each task of a set at most once and no others, exactly when no two tasks of the set share an ID. */
  lemma EndedIff(tasks: set<Task>)
    ensures (forall past, acts, t ::
               IsRun(Start(), past) && IsRun(After(Start(), past), acts)
               && After(After(Start(), past), acts).log.scheduled <= multiset(tasks)
               ==> Keeps(After(Start(), past), After(After(Start(), past), acts), t))
       <==> DistinctIds(tasks)
  {
    hide IsRun, After, Keeps, AllOnce, OwnIds, Start;
    if DistinctIds(tasks) {
      forall past, acts, t | IsRun(Start(), past) && IsRun(After(Start(), past), acts)
                             && After(After(Start(), past), acts).log.scheduled <= multiset(tasks)
        ensures Keeps(After(Start(), past), After(After(Start(), past), acts), t)
      {
        DrawnFrom(After(After(Start(), past), acts), tasks);
        EndedForGood(past, acts, t);
      }
    } else {
      var a, b :| a in tasks && b in tasks && a.id == b.id && a != b;
      ReusedIdLosesTask(a, b);
      assert multiset{a, b} <= multiset(tasks);
    }
  }

  /** The table holds every running task, over all runs that schedule each task of a set at most once and no others, exactly when no two tasks of the set share an ID. */
  lemma TableIff(tasks: set<Task>)
    ensures (forall acts :: IsRun(Start(), acts) && After(Start(), acts).log.scheduled <= multiset(tasks)
                            ==> TableComplete(After(Start(), acts)))
       <==> DistinctIds(tasks)
  {
    hide IsRun, After, TableComplete, AllOnce, OwnIds, Start;
    if DistinctIds(tasks) {
      forall acts | IsRun(Start(), acts) && After(Start(), acts).log.scheduled <= multiset(tasks)
        ensures TableComplete(After(Start(), acts))
      {
        DrawnFrom(After(Start(), acts), tasks);
        TableHoldsRunning(acts);
      }
    } else {
      var a, b :| a in tasks && b in tasks && a.id == b.id && a != b;
      ReusedIdLosesTask(a, b);
      RunAppend(Start(), CancelledLate(a), WatcherWakes(b));
      assert multiset{a, b} <= multiset(tasks);
    }
  }

  lemma NotCompletedStep(y: System, act: Action)
    requires Enabled(y, act) && forall t :: t in y.s.progress ==> y.s.progress[t].status != Completed
    ensures forall t :: t in Next(y, act).s.progress ==> Next(y, act).s.progress[t].status != Completed
  {
    hide Withdraw, Enqueue, GetNextTask;
  }

  /** Nothing in the scheduler ever completes a task: over every run, reused IDs or not, what has ended has failed or was cancelled. */
  lemma {:induction false} NeverCompleted(y: System, acts: seq<Action>)
    requires IsRun(y, acts) && forall t :: t in y.s.progress ==> y.s.progress[t].status != Completed
    ensures forall t :: t in After(y, acts).s.progress ==> After(y, acts).s.progress[t].status != Completed
    decreases acts
  {
    if acts != [] {
      NotCompletedStep(y, acts[0]);
      NeverCompleted(Next(y, acts[0]), acts[1..]);
    }
  }
}
