/**
 The scheduler as the program keeps it: four queue objects, the table of active tasks, and
 task records that are changed in place. Every method is proved to do to the scheduler's
 value what the function of the same name in SchedulerModel does.
 */
module TaskSchedulers {
  import opened Wrappers
  import opened Tasks
  import M = SchedulerModel

  class TaskQueue {
    var tasks: seq<Task>

    constructor ()
      ensures tasks == []
    {
      tasks := [];
    }

    method Push(task: Task)
      modifies this
      ensures tasks == old(tasks) + [task]
    {
      tasks := tasks + [task];
    }

    /** Waits until there is a task, so it returns only with one. */
    method Pop() returns (task: Task)
      requires tasks != []
      modifies this
      ensures old(tasks) == [task] + tasks
    {
      task := tasks[0];
      tasks := tasks[1..];
    }

    /** Takes out the first task with an ID. */
    method Remove(taskID: string) returns (found: bool)
      modifies this
      ensures tasks == M.Remove(old(tasks), taskID)
      ensures found == M.Find(old(tasks), taskID).Some?
    {
      for i := 0 to |tasks|
        invariant tasks == old(tasks)
        invariant forall j :: 0 <= j < i ==> tasks[j].id != taskID
      {
        if tasks[i].id == taskID {
          FoundAt(tasks, taskID, i);
          tasks := tasks[..i] + tasks[i + 1..];
          return true;
        }
      }
      FoundNowhere(tasks, taskID);
      return false;
    }

    method Size() returns (n: nat)
      ensures n == |tasks|
    {
      n := |tasks|;
    }
  }

  lemma {:induction false} FoundAt(q: seq<Task>, id: string, i: nat)
    requires i < |q| && q[i].id == id && forall j :: 0 <= j < i ==> q[j].id != id
    ensures M.Find(q, id) == Some(q[i]) && M.Remove(q, id) == q[..i] + q[i + 1..]
    decreases i
  {
    if i > 0 {
      var rest := q[1..];
      forall j | 0 <= j < i - 1 ensures rest[j].id != id { assert rest[j] == q[j + 1]; }
      FoundAt(rest, id, i - 1);
      assert q[0].id != id;
      assert M.Find(q, id) == M.Find(rest, id) && M.Remove(q, id) == [q[0]] + M.Remove(rest, id);
      hide M.Find, M.Remove;
      DropShifts(q, i);
    }
  }

  lemma DropShifts(q: seq<Task>, i: nat)
    requires 0 < i < |q|
    ensures [q[0]] + (q[1..][..i - 1] + q[1..][i..]) == q[..i] + q[i + 1..]
  {
    assert q[..i] == [q[0]] + q[1..][..i - 1];
    assert q[1..][i..] == q[i + 1..];
  }

  lemma {:induction false} FoundNowhere(q: seq<Task>, id: string)
    requires forall j :: 0 <= j < |q| ==> q[j].id != id
    ensures M.Find(q, id) == None && M.Remove(q, id) == q
    decreases q
  {
    if q != [] { FoundNowhere(q[1..], id); }
  }

  lemma {:induction false} RemoveAbsent(q: seq<Task>, id: string)
    ensures M.Find(q, id) == None ==> M.Remove(q, id) == q
    decreases q
  {
    if q != [] && q[0].id != id { RemoveAbsent(q[1..], id); }
  }

  ghost function FieldsOf(known: set<Task>): map<Task, Progress>
    reads known
  {
    map t | t in known :: t.Fields()
  }

  // The IDs among some that stand for a task that ended long ago.
  ghost function StaleAmong(active: map<string, Task>, ids: set<string>, now: int): set<string>
    reads set id | id in active :: active[id]
  {
    set id | id in ids && id in active && M.Stale(active[id].Fields(), now)
  }

  // The parts of executing a task: it becomes active, and is dispatched or turned away.
  function Activated(s: M.Scheduler, t: Task, now: int): M.Scheduler {
    s.(active := s.active[t.id := t], contexts := s.contexts + [M.Live], cancelFuncs := s.cancelFuncs[t := |s.contexts|],
       progress := s.progress[t := M.Of(s, t).(status := Running, startedAt := Some(now))])
  }

  function Dispatched(s: M.Scheduler, t: Task, ctx: nat): M.Scheduler {
    s.(taskChan := s.taskChan + [t], watchers := s.watchers + [(t, ctx)])
  }

  function Rejected(s: M.Scheduler, t: Task, now: int): M.Scheduler {
    s.(active := s.active - {t.id}, progress := s.progress[t := M.Finish(M.Of(s, t), "task channel full", now)])
  }

  lemma ExecutedInSteps(s: M.Scheduler, t: Task, now: int)
    ensures M.ExecuteTask(s, t, now)
         == if |s.taskChan| < M.CHANNEL_SIZE then Dispatched(Activated(s, t, now), t, |s.contexts|)
            else Rejected(Activated(s, t, now), t, now)
  {
    assert s.active[t.id := t] - {t.id} == s.active - {t.id};
  }

  class TaskScheduler {
    const highPriorityQueue: TaskQueue
    const mediumPriorityQueue: TaskQueue
    const lowPriorityQueue: TaskQueue
    const emergencyQueue: TaskQueue
    var activeTasks: map<string, Task>
    var taskChan: seq<Task>
    // The contexts made so far, the goroutines waiting for one, and each task's cancel function.
    var contexts: seq<M.Context>
    var watchers: seq<(Task, nat)>
    var cancelFuncs: map<Task, nat>
    var running: bool
    // Every task that was ever scheduled here.
    ghost var known: set<Task>

    ghost predicate Valid()
      reads this, emergencyQueue, highPriorityQueue, mediumPriorityQueue, lowPriorityQueue
    {
      && emergencyQueue != highPriorityQueue && emergencyQueue != mediumPriorityQueue && emergencyQueue != lowPriorityQueue
      && highPriorityQueue != mediumPriorityQueue && highPriorityQueue != lowPriorityQueue && mediumPriorityQueue != lowPriorityQueue
      && (forall id :: id in activeTasks ==> activeTasks[id].id == id && activeTasks[id] in known)
    }

    ghost function Queues(): M.Queues
      reads emergencyQueue, highPriorityQueue, mediumPriorityQueue, lowPriorityQueue
    {
      M.Queues(emergencyQueue.tasks, highPriorityQueue.tasks, mediumPriorityQueue.tasks, lowPriorityQueue.tasks)
    }

    ghost function View(): M.Scheduler
      reads this, emergencyQueue, highPriorityQueue, mediumPriorityQueue, lowPriorityQueue, known
    {
      M.Scheduler(Queues(), activeTasks, taskChan, contexts, watchers, FieldsOf(known), cancelFuncs, running)
    }

    constructor ()
      ensures Valid()
      ensures View() == M.Scheduler(M.Queues([], [], [], []), map[], [], [], [], map[], map[], false)
    {
      var emergency := new TaskQueue();
      var high := new TaskQueue();
      var medium := new TaskQueue();
      var low := new TaskQueue();
      emergencyQueue, highPriorityQueue, mediumPriorityQueue, lowPriorityQueue := emergency, high, medium, low;
      activeTasks, taskChan, contexts, watchers, cancelFuncs, running := map[], [], [], [], map[], false;
      known := {};
    }

    // Each priority has its queue; an unknown one goes with medium.
    method Enqueue(task: Task)
      requires Valid()
      modifies emergencyQueue, highPriorityQueue, mediumPriorityQueue, lowPriorityQueue
      ensures Valid() && Queues() == M.Enqueue(old(Queues()), task)
      ensures FieldsOf(known) == old(FieldsOf(known))
    {
      match task.priority
      case 0 => emergencyQueue.Push(task);
      case 1 => highPriorityQueue.Push(task);
      case 2 => mediumPriorityQueue.Push(task);
      case 3 => lowPriorityQueue.Push(task);
      case _ => mediumPriorityQueue.Push(task);
    }

    /** Queues a task by its priority, pending again whatever it was. */
    method ScheduleTask(task: Task) returns (ok: bool)
      requires Valid()
      modifies this, task, emergencyQueue, highPriorityQueue, mediumPriorityQueue, lowPriorityQueue
      ensures Valid()
      ensures (View(), ok) == M.ScheduleTask(old(View()), task, old(task.Fields()))
      ensures known == old(known) + (if ok then {task} else {})
      ensures ok == old(running) && (ok ==> task.status == Pending)
      ensures var to := if task.priority == 0 then emergencyQueue else if task.priority == 1 then highPriorityQueue
                        else if task.priority == 3 then lowPriorityQueue else mediumPriorityQueue;
              to.tasks == old(to.tasks) + (if ok then [task] else [])
    {
      if !running { return false; }
      task.status := Pending;
      known := known + {task};
      assert FieldsOf(known) == M.ScheduleTask(old(View()), task, old(task.Fields())).0.progress;
      hide Queues, FieldsOf;
      Enqueue(task);
      return true;
    }

    /** The head of the most urgent queue that has one. */
    method GetNextTask() returns (next: Option<Task>)
      requires Valid()
      modifies emergencyQueue, highPriorityQueue, mediumPriorityQueue, lowPriorityQueue
      ensures Valid()
      ensures (Queues(), next) == M.GetNextTask(old(Queues()))
      ensures View() == old(View()).(queues := Queues())
    {
      hide FieldsOf;
      var task: Task;
      var size := emergencyQueue.Size();
      if size > 0 {
        task := emergencyQueue.Pop();
        return Some(task);
      }
      size := highPriorityQueue.Size();
      if size > 0 {
        task := highPriorityQueue.Pop();
        return Some(task);
      }
      size := mediumPriorityQueue.Size();
      if size > 0 {
        task := mediumPriorityQueue.Pop();
        return Some(task);
      }
      size := lowPriorityQueue.Size();
      if size > 0 {
        task := lowPriorityQueue.Pop();
        return Some(task);
      }
      return None;
    }

    // The task enters the table, running, with a context of its own.
    method Activate(task: Task, now: int)
      requires Valid() && task in known
      modifies this`activeTasks, this`contexts, this`cancelFuncs, task
      ensures Valid() && activeTasks == old(activeTasks)[task.id := task]
      ensures View() == Activated(old(View()), task, now)
      ensures task.status == Running && task.startedAt == Some(now)
    {
      activeTasks := activeTasks[task.id := task];
      task.status := Running;
      task.startedAt := Some(now);
      cancelFuncs := cancelFuncs[task := |contexts|];
      contexts := contexts + [M.Live];
      OneTaskChanged(task);
    }

    // A goroutine waits for the task's context, and the task goes into the channel.
    method Dispatch(task: Task, ctx: nat)
      requires Valid()
      modifies this`taskChan, this`watchers
      ensures Valid()
      ensures View() == Dispatched(old(View()), task, ctx)
      ensures taskChan == old(taskChan) + [task] && watchers == old(watchers) + [(task, ctx)]
    {
      hide Queues, FieldsOf;
      taskChan := taskChan + [task];
      watchers := watchers + [(task, ctx)];
    }

    // The task fails and leaves the table.
    method Reject(task: Task, now: int)
      requires Valid() && task in known
      modifies this`activeTasks, task
      ensures Valid()
      ensures View() == Rejected(old(View()), task, now)
      ensures task.status == Failed && task.error == Some("task channel full") && task.completedAt == Some(now)
      ensures activeTasks == old(activeTasks) - {task.id}
    {
      hide Queues;
      task.status := Failed;
      task.error := Some("task channel full");
      task.completedAt := Some(now);
      activeTasks := activeTasks - {task.id};
      OneTaskChanged(task);
    }

    /** Makes a task active and offers it to the channel; a full channel fails it and takes it out again. */
    method ExecuteTask(task: Task, now: int)
      requires Valid() && task in known
      modifies this, task
      ensures Valid() && known == old(known)
      ensures View() == M.ExecuteTask(old(View()), task, now)
      ensures |old(taskChan)| < 100 ==> task.status == Running && task.startedAt == Some(now) && task.id in activeTasks && activeTasks[task.id] == task
      ensures |old(taskChan)| < 100 ==> taskChan == old(taskChan) + [task] && watchers == old(watchers) + [(task, |old(contexts)|)]
      ensures |old(taskChan)| >= 100 ==> task.status == Failed && task.error == Some("task channel full") && task.completedAt == Some(now)
      ensures |old(taskChan)| >= 100 ==> task.id !in activeTasks && taskChan == old(taskChan) && watchers == old(watchers)
    {
      ExecutedInSteps(View(), task, now);
      assert View().taskChan == taskChan && View().contexts == contexts;
      hide Valid, View, Queues, FieldsOf, M.ExecuteTask, Activated, Dispatched, Rejected;
      var ctx := |contexts|;
      Activate(task, now);
      if |taskChan| < M.CHANNEL_SIZE {
        Dispatch(task, ctx);
      } else {
        Reject(task, now);
      }
    }

    // Task records are separate objects, so changing one leaves the others' fields alone.
    twostate lemma OneTaskChanged(task: Task)
      requires task in known && known == old(known)
      requires forall t :: t in known && t != task ==> unchanged(t)
      ensures FieldsOf(known) == old(FieldsOf(known))[task := task.Fields()]
      ensures M.Of(old(View()), task) == old(task.Fields())
    {
    }

    /** Cancels an active task, or else takes the first queued task with the ID out of its queue. */
    method CancelTask(taskID: string, now: int) returns (ok: bool)
      requires Valid()
      modifies this, emergencyQueue, highPriorityQueue, mediumPriorityQueue, lowPriorityQueue, known
      ensures Valid() && known == old(known)
      ensures (View(), ok) == M.CancelTask(old(View()), taskID, now)
      ensures taskID in old(activeTasks) ==>
                var task := old(activeTasks)[taskID];
                && ok && task.status == Cancelled && task.completedAt == Some(now) && taskID !in activeTasks
                && (task in cancelFuncs && cancelFuncs[task] < |contexts| ==> contexts[cancelFuncs[task]] != M.Live)
    {
      if taskID in activeTasks {
        var task := activeTasks[taskID];
        if task in cancelFuncs { contexts := M.Stop(contexts, cancelFuncs[task]); }
        task.status := Cancelled;
        task.completedAt := Some(now);
        activeTasks := activeTasks - {taskID};
        OneTaskChanged(task);
        return true;
      }
      ok := RemoveFromQueues(taskID);
    }

    // The queues are asked in order until one has the ID.
    method RemoveFromQueues(taskID: string) returns (ok: bool)
      requires Valid()
      modifies emergencyQueue, highPriorityQueue, mediumPriorityQueue, lowPriorityQueue
      ensures Valid()
      ensures Queues() == M.Withdraw(old(Queues()), taskID).0 && ok == M.Withdraw(old(Queues()), taskID).1.Some?
      ensures View() == old(View()).(queues := Queues())
    {
      hide M.Find, M.Remove;
      RemoveAbsent(emergencyQueue.tasks, taskID);
      RemoveAbsent(highPriorityQueue.tasks, taskID);
      RemoveAbsent(mediumPriorityQueue.tasks, taskID);
      RemoveAbsent(lowPriorityQueue.tasks, taskID);
      ok := emergencyQueue.Remove(taskID);
      if !ok { ok := highPriorityQueue.Remove(taskID); }
      if !ok { ok := mediumPriorityQueue.Remove(taskID); }
      if !ok { ok := lowPriorityQueue.Remove(taskID); }
    }

    method PauseTask(taskID: string) returns (ok: bool)
      requires Valid()
      modifies known
      ensures Valid()
      ensures (View(), ok) == M.PauseTask(old(View()), taskID)
      ensures ok == (taskID in activeTasks) && (ok ==> activeTasks[taskID].status == Paused)
    {
      if taskID in activeTasks {
        activeTasks[taskID].status := Paused;
        OneTaskChanged(activeTasks[taskID]);
        return true;
      }
      return false;
    }

    method ResumeTask(taskID: string) returns (ok: bool)
      requires Valid()
      modifies known
      ensures Valid()
      ensures (View(), ok) == M.ResumeTask(old(View()), taskID)
      ensures ok == (taskID in activeTasks) && (ok ==> activeTasks[taskID].status == Running)
    {
      if taskID in activeTasks {
        activeTasks[taskID].status := Running;
        OneTaskChanged(activeTasks[taskID]);
        return true;
      }
      return false;
    }

    /** What a task's watcher does once its context has ended. */
    method Watch(task: Task, ended: M.Context, now: int)
      requires Valid() && task in known
      modifies this`activeTasks, task
      ensures Valid()
      ensures View() == M.Watch(old(View()), task, ended, now)
      ensures activeTasks == old(activeTasks) - {task.id}
      ensures task.id in old(activeTasks) ==> task.completedAt == Some(now)
      ensures task.id in old(activeTasks) && ended == M.Expired ==> task.status == Failed && task.error == Some("task timeout")
      ensures task.id !in old(activeTasks) || ended != M.Expired ==> task.status == old(task.status) && task.error == old(task.error)
    {
      if task.id in activeTasks {
        if ended == M.Expired {
          task.status := Failed;
          task.error := Some("task timeout");
        }
        task.completedAt := Some(now);
        activeTasks := activeTasks - {task.id};
        OneTaskChanged(task);
      }
    }

    /** Deletes active tasks that ended more than five minutes ago, in whatever order the table is walked. */
    method ProcessQueues(now: int)
      requires Valid()
      modifies this`activeTasks
      ensures Valid()
      ensures View() == M.ProcessQueues(old(View()), now)
      ensures forall id :: id in activeTasks <==>
                id in old(activeTasks)
                && !(running && (old(activeTasks)[id].status == Failed || old(activeTasks)[id].status == Completed)
                     && old(activeTasks)[id].completedAt.Some? && now - old(activeTasks)[id].completedAt.value > 5 * 60 * 1_000_000_000)
    {
      if !running { return; }
      var ids := activeTasks.Keys;
      ghost var visited: set<string> := {};
      while ids != {}
        invariant ids !! visited && ids + visited == old(activeTasks).Keys
        invariant activeTasks == old(activeTasks) - StaleAmong(old(activeTasks), visited, now)
      {
        var id :| id in ids;
        ids := ids - {id};
        visited := visited + {id};
        if id in activeTasks {
          var task := activeTasks[id];
          assert task.id == id;
          if (task.status == Failed || task.status == Completed) && task.completedAt.Some? && now - task.completedAt.value > M.FIVE_MINUTES {
            activeTasks := activeTasks - {task.id};
          }
        }
      }
      assert M.Swept(old(View()), now) == StaleAmong(old(activeTasks), visited, now);
    }
  }
}
