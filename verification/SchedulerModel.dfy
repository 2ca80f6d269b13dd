/** Tasks as the scheduler shares them: who they are never changes, how far they got does. */
module Tasks {
  import opened Wrappers

  datatype Status = Pending | Running | Paused | Completed | Failed | Cancelled

  datatype Progress = Progress(status: Status, startedAt: Option<int>, completedAt: Option<int>, error: Option<string>)

  class Task {
    const id: string
    const priority: int
    var status: Status
    var startedAt: Option<int>
    var completedAt: Option<int>
    var error: Option<string>

    constructor (id: string, priority: int)
      ensures this.id == id && this.priority == priority
      ensures Fields() == Progress(Pending, None, None, None)
    {
      this.id, this.priority, status := id, priority, Pending;
      startedAt, completedAt, error := None, None, None;
    }

    function Fields(): Progress
      reads this
    {
      Progress(status, startedAt, completedAt, error)
    }
  }

  // The four classes, most urgent first; an unknown priority counts as medium.
  function Class(t: Task): (k: nat)
    ensures k < 4
  {
    if 0 <= t.priority <= 3 then t.priority else 2
  }
}

/**
 The scheduler as a value: four queues, the table of active tasks, the channel to the
 consumer, and what is known of every task. Each function is one atomic step.
 */
module SchedulerModel {
  import opened Wrappers
  import opened Tasks

  // A task's context ends by being cancelled or by running out of time, whichever comes first.
  datatype Context = Live | Stopped | Expired

  datatype Queues = Queues(emergency: seq<Task>, high: seq<Task>, medium: seq<Task>, low: seq<Task>)

  datatype Scheduler = Scheduler(
    queues: Queues,
    active: map<string, Task>,
    taskChan: seq<Task>,
    contexts: seq<Context>,
    watchers: seq<(Task, nat)>,     // goroutines waiting for a context to end
    progress: map<Task, Progress>,
    cancelFuncs: map<Task, nat>,    // the context a task's cancel function ends
    running: bool
  )

  const CHANNEL_SIZE := 100
  const FIVE_MINUTES := 300_000_000_000

  function Of(s: Scheduler, t: Task): Progress {
    if t in s.progress then s.progress[t] else Progress(Pending, None, None, None)
  }

  function Enqueue(qs: Queues, t: Task): Queues {
    match Class(t)
    case 0 => qs.(emergency := qs.emergency + [t])
    case 1 => qs.(high := qs.high + [t])
    case 2 => qs.(medium := qs.medium + [t])
    case _ => qs.(low := qs.low + [t])
  }

  // A task the scheduler has not seen before brings its own fields along.
  function ScheduleTask(s: Scheduler, t: Task, was: Progress): (Scheduler, bool) {
    if !s.running then (s, false)
    else
      var p := if t in s.progress then s.progress[t] else was;
      (s.(queues := Enqueue(s.queues, t), progress := s.progress[t := p.(status := Pending)]), true)
  }

  function GetNextTask(qs: Queues): (Queues, Option<Task>) {
    if qs.emergency != [] then (qs.(emergency := qs.emergency[1..]), Some(qs.emergency[0]))
    else if qs.high != [] then (qs.(high := qs.high[1..]), Some(qs.high[0]))
    else if qs.medium != [] then (qs.(medium := qs.medium[1..]), Some(qs.medium[0]))
    else if qs.low != [] then (qs.(low := qs.low[1..]), Some(qs.low[0]))
    else (qs, None)
  }

  function Finish(p: Progress, error: string, now: int): Progress {
    p.(status := Failed, error := Some(error), completedAt := Some(now))
  }

  // The task becomes active; a full channel turns it away again, failed.
  function ExecuteTask(s: Scheduler, t: Task, now: int): Scheduler
  {
    var p := Of(s, t).(status := Running, startedAt := Some(now));
    var c := |s.contexts|;
    var s1 := s.(contexts := s.contexts + [Live], cancelFuncs := s.cancelFuncs[t := c]);
    if |s.taskChan| < CHANNEL_SIZE then
      s1.(active := s.active[t.id := t], progress := s.progress[t := p],
          taskChan := s.taskChan + [t], watchers := s.watchers + [(t, c)])
    else s1.(active := s.active - {t.id}, progress := s.progress[t := Finish(p, "task channel full", now)])
  }

  // A queue without the first task that has an ID.
  function Remove(q: seq<Task>, id: string): seq<Task> {
    if q == [] then [] else if q[0].id == id then q[1..] else [q[0]] + Remove(q[1..], id)
  }

  function Find(q: seq<Task>, id: string): Option<Task> {
    if q == [] then None else if q[0].id == id then Some(q[0]) else Find(q[1..], id)
  }

  // The first task with an ID, from the most urgent queue that has one.
  function Withdraw(qs: Queues, id: string): (Queues, Option<Task>) {
    if Find(qs.emergency, id).Some? then (qs.(emergency := Remove(qs.emergency, id)), Find(qs.emergency, id))
    else if Find(qs.high, id).Some? then (qs.(high := Remove(qs.high, id)), Find(qs.high, id))
    else if Find(qs.medium, id).Some? then (qs.(medium := Remove(qs.medium, id)), Find(qs.medium, id))
    else if Find(qs.low, id).Some? then (qs.(low := Remove(qs.low, id)), Find(qs.low, id))
    else (qs, None)
  }

  function Stop(contexts: seq<Context>, c: nat): seq<Context> {
    if c < |contexts| && contexts[c] == Live then contexts[c := Stopped] else contexts
  }

  function CancelTask(s: Scheduler, id: string, now: int): (Scheduler, bool)
  {
    if id in s.active then
      var t := s.active[id];
      (s.(contexts := if t in s.cancelFuncs then Stop(s.contexts, s.cancelFuncs[t]) else s.contexts,
          progress := s.progress[t := Of(s, t).(status := Cancelled, completedAt := Some(now))],
          active := s.active - {id}), true)
    else
      var (qs, found) := Withdraw(s.queues, id);
      (s.(queues := qs), found.Some?)
  }

  function SetStatus(s: Scheduler, id: string, status: Status): (Scheduler, bool)
  {
    if id in s.active then
      var t := s.active[id];
      (s.(progress := s.progress[t := Of(s, t).(status := status)]), true)
    else (s, false)
  }

  function PauseTask(s: Scheduler, id: string): (Scheduler, bool)
  {
    SetStatus(s, id, Paused)
  }

  function ResumeTask(s: Scheduler, id: string): (Scheduler, bool)
  {
    SetStatus(s, id, Running)
  }

  // A watcher whose context has ended closes its own task, but looks the table up by ID.
  function Watch(s: Scheduler, t: Task, ended: Context, now: int): Scheduler
  {
    if t.id in s.active then
      var p := if ended == Expired then Of(s, t).(status := Failed, error := Some("task timeout")) else Of(s, t);
      s.(progress := s.progress[t := p.(completedAt := Some(now))], active := s.active - {t.id})
    else s
  }

  // An active task that has been finished for more than five minutes.
  predicate Stale(p: Progress, now: int) {
    (p.status == Failed || p.status == Completed) && p.completedAt.Some? && now - p.completedAt.value > FIVE_MINUTES
  }

  // The IDs the clean-up deletes.
  function Swept(s: Scheduler, now: int): set<string> {
    set id | id in s.active && Stale(Of(s, s.active[id]), now) :: s.active[id].id
  }

  function ProcessQueues(s: Scheduler, now: int): Scheduler {
    if !s.running then s else s.(active := s.active - Swept(s, now))
  }
}
