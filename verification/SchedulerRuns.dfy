/**
 The scheduler over whole runs: callers schedule, cancel, pause and resume, the loop takes
 and executes, contexts end, watchers wake up and the timer ticks, in any order.
 */
module SchedulerRuns {
  import opened Wrappers
  import opened Tasks
  import opened SchedulerModel
  import opened PriorityOrder

  // What became of the tasks that were scheduled.
  datatype Log = Log(scheduled: multiset<Task>, dispatched: multiset<Task>, rejected: multiset<Task>, removed: multiset<Task>)

  // The loop holds a task between taking it and executing it.
  datatype System = System(s: Scheduler, held: Option<Task>, log: Log)

  datatype Action =
    | Schedule(t: Task, was: Progress)
    | Take
    | Execute(now: int)
    | Receive
    | Cancel(id: string, now: int)
    | Pause(id: string)
    | Resume(id: string)
    | Expire(c: nat)
    | Wake(i: nat, now: int)
    | Tick(now: int)

  predicate Enabled(y: System, act: Action) {
    match act
    case Take => y.held.None?
    case Execute(now) => y.held.Some?
    case Receive => y.s.taskChan != []
    case Expire(c) => c < |y.s.contexts|
    case Wake(i, now) => i < |y.s.watchers| && y.s.watchers[i].1 < |y.s.contexts| && y.s.contexts[y.s.watchers[i].1] != Live
    case _ => true
  }

  function Scheduled(y: System, t: Task, was: Progress): System {
    var (s, ok) := ScheduleTask(y.s, t, was);
    if ok then y.(s := s, log := y.log.(scheduled := y.log.scheduled + multiset{t})) else y
  }

  function Taken(y: System): System {
    var (qs, next) := GetNextTask(y.s.queues);
    y.(s := y.s.(queues := qs), held := next)
  }

  function Executed(y: System, t: Task, now: int): System {
    y.(s := ExecuteTask(y.s, t, now), held := None,
       log := if |y.s.taskChan| < CHANNEL_SIZE then y.log.(dispatched := y.log.dispatched + multiset{t})
              else y.log.(rejected := y.log.rejected + multiset{t}))
  }

  function CancelledOne(y: System, id: string, now: int): System {
    var gone := if id in y.s.active then None else Withdraw(y.s.queues, id).1;
    y.(s := CancelTask(y.s, id, now).0,
       log := if gone.Some? then y.log.(removed := y.log.removed + multiset{gone.value}) else y.log)
  }

  function Woken(y: System, i: nat, now: int): System
    requires Enabled(y, Wake(i, now))
  {
    var (t, c) := y.s.watchers[i];
    y.(s := Watch(y.s, t, y.s.contexts[c], now).(watchers := y.s.watchers[..i] + y.s.watchers[i + 1..]))
  }

  function Next(y: System, act: Action): System
    requires Enabled(y, act)
  {
    match act
    case Schedule(t, was) => Scheduled(y, t, was)
    case Take => Taken(y)
    case Execute(now) => Executed(y, y.held.value, now)
    case Receive => y.(s := y.s.(taskChan := y.s.taskChan[1..]))
    case Cancel(id, now) => CancelledOne(y, id, now)
    case Pause(id) => y.(s := PauseTask(y.s, id).0)
    case Resume(id) => y.(s := ResumeTask(y.s, id).0)
    case Expire(c) => y.(s := y.s.(contexts := if y.s.contexts[c] == Live then y.s.contexts[c := Expired] else y.s.contexts))
    case Wake(i, now) => Woken(y, i, now)
    case Tick(now) => y.(s := ProcessQueues(y.s, now))
  }

  predicate IsRun(y: System, acts: seq<Action>)
    decreases acts
  {
    acts == [] || (Enabled(y, acts[0]) && IsRun(Next(y, acts[0]), acts[1..]))
  }

  function After(y: System, acts: seq<Action>): System
    requires IsRun(y, acts)
    decreases acts
  {
    if acts == [] then y else After(Next(y, acts[0]), acts[1..])
  }

  function Start(): System {
    System(Scheduler(Queues([], [], [], []), map[], [], [], [], map[], map[], true), None,
           Log(multiset{}, multiset{}, multiset{}, multiset{}))
  }

  // ---------------------------------------------------------------- the queues follow one list

  lemma ForemostExists(l: seq<Task>)
    requires l != []
    ensures exists i: nat :: Foremost(l, i)
  {
    var i := NextIsForemost(l);
  }

  // What a step does to the list of waiting tasks in the order they were scheduled.
  ghost function Tracked(y: System, act: Action, l: seq<Task>): seq<Task> {
    match act
    case Schedule(t, was) => if y.s.running then l + [t] else l
    case Take => if l == [] then l else (ForemostExists(l); var i: nat :| Foremost(l, i); WithoutAt(l, i))
    case Cancel(id, now) =>
      if id in y.s.active || !Has(l, id) then l
      else (ForemostOfExists(l, id); var i: nat :| ForemostOf(l, id, i); WithoutAt(l, i))
    case _ => l
  }

  lemma ForemostOfExists(l: seq<Task>, id: string)
    requires Has(l, id)
    ensures exists i: nat :: ForemostOf(l, id, i)
  {
    var i := WithdrawIsForemost(l, id);
  }

  lemma TrackedStep(y: System, act: Action, l: seq<Task>)
    requires y.s.queues == Split(l) && Enabled(y, act)
    ensures Next(y, act).s.queues == Split(Tracked(y, act, l))
    ensures act.Take? && l != [] ==> exists i: nat :: Foremost(l, i) && Next(y, act).held == Some(l[i])
    ensures act.Take? && l == [] ==> Next(y, act).held == None
  {
    hide Split, Withdraw, GetNextTask;
    match act
    case Schedule(t, was) => EnqueueIsAppend(l, t);
    case Take =>
      var i := NextIsForemost(l);
      forall j: nat | l != [] && Foremost(l, j) ensures i == j {
        assert Precedes(l, i, j) || i == j;
        assert Precedes(l, j, i) || i == j;
      }
    case Cancel(id, now) =>
      var i := WithdrawIsForemost(l, id);
      forall j: nat | Has(l, id) && ForemostOf(l, id, j) ensures i == j {
        assert Precedes(l, i, j) || i == j;
        assert Precedes(l, j, i) || i == j;
      }
    case _ =>
  }

  ghost function TrackedAll(y: System, acts: seq<Action>, l: seq<Task>): seq<Task>
    requires IsRun(y, acts)
    decreases acts
  {
    if acts == [] then l else TrackedAll(Next(y, acts[0]), acts[1..], Tracked(y, acts[0], l))
  }

  /** Over every run the four queues are one list, in the order of scheduling, split by class; and what the loop takes next is the earliest of the most urgent class in it. */
  lemma {:induction false} QueuesFollowList(y: System, acts: seq<Action>, l: seq<Task>)
    requires y.s.queues == Split(l) && IsRun(y, acts)
    ensures After(y, acts).s.queues == Split(TrackedAll(y, acts, l))
    ensures var (rest, next) := GetNextTask(After(y, acts).s.queues);
            var waiting := TrackedAll(y, acts, l);
            if waiting == [] then next == None
            else exists i: nat :: Foremost(waiting, i) && next == Some(waiting[i]) && rest == Split(WithoutAt(waiting, i))
    decreases acts
  {
    hide Split, GetNextTask, Tracked, Next, Enabled;
    if acts == [] {
      var i := NextIsForemost(l);
    } else {
      TrackedStep(y, acts[0], l);
      QueuesFollowList(Next(y, acts[0]), acts[1..], Tracked(y, acts[0], l));
    }
  }

  // ---------------------------------------------------------------- by priority, whatever the classes

  lemma ForemostByPriority(l: seq<Task>, i: nat)
    requires Foremost(l, i)
    ensures forall j :: 0 <= j < |l| ==> !Outranks(l[j].priority, l[i].priority)
    ensures forall j :: 0 <= j < i ==> Outranks(l[i].priority, l[j].priority)
  {
    hide Outranks;
    forall j | 0 <= j < |l|
      ensures !Outranks(l[j].priority, l[i].priority) && (j < i ==> Outranks(l[i].priority, l[j].priority))
    {
      ClassIsByPriority(l[j], l[i]);
      ClassIsByPriority(l[i], l[j]);
      assert j != i ==> Precedes(l, i, j);
    }
  }

  /**
   Over every run, of the waiting tasks the loop is handed one that none outranks, and the
   earliest of those: none waits that has a smaller priority among 0 to 3, none of its own
   priority was scheduled before it, and a priority outside 0 to 3 counts as 2.
   */
  lemma HandedOutByPriority(acts: seq<Action>)
    requires IsRun(Start(), acts)
    ensures var waiting, next := TrackedAll(Start(), acts, []), GetNextTask(After(Start(), acts).s.queues).1;
            && (next == None <==> waiting == [])
            && (next.Some? ==> exists i: nat :: i < |waiting| && next == Some(waiting[i]) && IsNext(waiting, i))
  {
    QueuesFollowList(Start(), acts, []);
    var waiting := TrackedAll(Start(), acts, []);
    hide IsRun, After, TrackedAll, Start, IsNext, GetNextTask;
    if waiting != [] {
      var i: nat :| Foremost(waiting, i) && GetNextTask(After(Start(), acts).s.queues).1 == Some(waiting[i]);
      ForemostIsNext(waiting, i);
    }
  }

  // What is handed out, said of the priorities alone.
  ghost predicate IsNext(waiting: seq<Task>, i: nat)
    requires i < |waiting|
  {
    var p := waiting[i].priority;
    && (forall j :: 0 <= j < |waiting| && 0 <= waiting[j].priority <= 3 && 0 <= p <= 3 ==> p <= waiting[j].priority)
    && (forall j :: 0 <= j < i ==> waiting[j].priority != p)
    && (p < 0 || p > 3 ==> forall j :: 0 <= j < |waiting| ==> waiting[j].priority != 0 && waiting[j].priority != 1 && (j < i ==> waiting[j].priority == 3))
    && (p == 2 ==> forall j :: 0 <= j < i ==> 0 <= waiting[j].priority <= 3)
    && (p == 3 ==> forall j :: 0 <= j < |waiting| ==> 0 <= waiting[j].priority <= 3)
  }

  lemma ForemostIsNext(waiting: seq<Task>, i: nat)
    requires Foremost(waiting, i)
    ensures IsNext(waiting, i)
  {
    ForemostByPriority(waiting, i);
    hide Foremost;
  }
}
