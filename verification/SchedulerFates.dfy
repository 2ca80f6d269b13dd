/** What becomes of scheduled tasks over a run, and how long a waiting task can be overtaken. */
module SchedulerFates {
  import opened Wrappers
  import opened Tasks
  import opened SchedulerModel
  import opened PriorityOrder
  import opened SchedulerRuns

  // ---------------------------------------------------------------- conservation

  function Queued(qs: Queues): multiset<Task> {
    multiset(qs.emergency) + multiset(qs.high) + multiset(qs.medium) + multiset(qs.low)
  }

  function Held(y: System): multiset<Task> {
    if y.held.Some? then multiset{y.held.value} else multiset{}
  }

  // How often a task was scheduled, and where each of these went.
  ghost predicate Conserved(y: System, t: Task) {
    y.log.scheduled[t] == Queued(y.s.queues)[t] + Held(y)[t] + y.log.removed[t] + y.log.rejected[t] + y.log.dispatched[t]
  }

  lemma HeadBag(q: seq<Task>)
    requires q != []
    ensures multiset(q) == multiset(q[1..]) + multiset{q[0]}
  {
    assert q == [q[0]] + q[1..];
  }

  lemma {:induction false} RemoveBag(q: seq<Task>, id: string)
    requires Find(q, id).Some?
    ensures multiset(q) == multiset(Remove(q, id)) + multiset{Find(q, id).value}
    decreases q
  {
    HeadBag(q);
    if q[0].id != id {
      RemoveBag(q[1..], id);
      assert multiset(Remove(q, id)) == multiset([q[0]]) + multiset(Remove(q[1..], id));
    }
  }

  lemma EnqueueBag(qs: Queues, t: Task)
    ensures Queued(Enqueue(qs, t)) == Queued(qs) + multiset{t}
  {
    match Class(t)
    case 0 => assert multiset(qs.emergency + [t]) == multiset(qs.emergency) + multiset{t};
    case 1 => assert multiset(qs.high + [t]) == multiset(qs.high) + multiset{t};
    case 2 => assert multiset(qs.medium + [t]) == multiset(qs.medium) + multiset{t};
    case _ => assert multiset(qs.low + [t]) == multiset(qs.low) + multiset{t};
  }

  lemma NextBag(qs: Queues)
    ensures var (rest, next) := GetNextTask(qs);
            Queued(qs) == Queued(rest) + if next.Some? then multiset{next.value} else multiset{}
  {
    if qs.emergency != [] { HeadBag(qs.emergency); }
    else if qs.high != [] { HeadBag(qs.high); }
    else if qs.medium != [] { HeadBag(qs.medium); }
    else if qs.low != [] { HeadBag(qs.low); }
  }

  lemma WithdrawBag(qs: Queues, id: string)
    ensures var (rest, gone) := Withdraw(qs, id);
            Queued(qs) == Queued(rest) + if gone.Some? then multiset{gone.value} else multiset{}
  {
    hide Find, Remove;
    if Find(qs.emergency, id).Some? { RemoveBag(qs.emergency, id); }
    else if Find(qs.high, id).Some? { RemoveBag(qs.high, id); }
    else if Find(qs.medium, id).Some? { RemoveBag(qs.medium, id); }
    else if Find(qs.low, id).Some? { RemoveBag(qs.low, id); }
  }

  lemma ConservedSchedule(y: System, u: Task, was: Progress, t: Task)
    requires Conserved(y, t)
    ensures Conserved(Scheduled(y, u, was), t)
  {
    EnqueueBag(y.s.queues, u);
    hide Queued, Enqueue;
  }

  lemma ConservedTake(y: System, t: Task)
    requires Conserved(y, t) && y.held.None?
    ensures Conserved(Taken(y), t)
  {
    NextBag(y.s.queues);
    hide Queued, GetNextTask;
  }

  lemma ConservedCancel(y: System, id: string, now: int, t: Task)
    requires Conserved(y, t)
    ensures Conserved(CancelledOne(y, id, now), t)
  {
    WithdrawBag(y.s.queues, id);
    hide Queued, Withdraw;
  }

  lemma ConservedExecute(y: System, now: int, t: Task)
    requires Conserved(y, t) && y.held.Some?
    ensures Conserved(Executed(y, y.held.value, now), t)
  {
    hide Queued;
    assert Executed(y, y.held.value, now).s.queues == y.s.queues;
  }

  lemma ConservedStep(y: System, act: Action, t: Task)
    requires Conserved(y, t) && Enabled(y, act)
    ensures Conserved(Next(y, act), t)
  {
    hide Queued, Scheduled, Taken, CancelledOne, Executed;
    match act
    case Schedule(u, was) => ConservedSchedule(y, u, was, t);
    case Take => ConservedTake(y, t);
    case Cancel(id, now) => ConservedCancel(y, id, now, t);
    case Execute(now) => ConservedExecute(y, now, t);
    case _ => ConservedRest(y, act, t);
  }

  lemma ConservedRest(y: System, act: Action, t: Task)
    requires Conserved(y, t) && Enabled(y, act) && !act.Schedule? && !act.Take? && !act.Cancel? && !act.Execute?
    ensures Conserved(Next(y, act), t)
  {
    hide Queued;
    assert Next(y, act).s.queues == y.s.queues && Next(y, act).held == y.held && Next(y, act).log == y.log;
  }

  /** Over every run, every time a task was scheduled it is either still queued, in the loop's hands, removed by a cancel, rejected or dispatched, and only one of these. */
  lemma {:induction false} TasksAreConserved(y: System, acts: seq<Action>, t: Task)
    requires Conserved(y, t) && IsRun(y, acts)
    ensures Conserved(After(y, acts), t)
    decreases acts
  {
    if acts != [] {
      ConservedStep(y, acts[0], t);
      TasksAreConserved(Next(y, acts[0]), acts[1..], t);
    }
  }

  // ---------------------------------------------------------------- overtaking

  function Position(q: seq<Task>, t: Task): nat {
    if q == [] || q[0] == t then 0 else 1 + Position(q[1..], t)
  }

  function QueueOf(qs: Queues, t: Task): seq<Task> {
    match Class(t)
    case 0 => qs.emergency
    case 1 => qs.high
    case 2 => qs.medium
    case _ => qs.low
  }

  // How many tasks the scheduler would hand out before this one.
  function Ahead(qs: Queues, t: Task): nat {
    (match Class(t)
     case 0 => 0
     case 1 => |qs.emergency|
     case 2 => |qs.emergency| + |qs.high|
     case _ => |qs.emergency| + |qs.high| + |qs.medium|) + Position(QueueOf(qs, t), t)
  }

  // Every queue holds tasks of its own class.
  ghost predicate Classed(qs: Queues) {
    && (forall i :: 0 <= i < |qs.emergency| ==> Class(qs.emergency[i]) == 0)
    && (forall i :: 0 <= i < |qs.high| ==> Class(qs.high[i]) == 1)
    && (forall i :: 0 <= i < |qs.medium| ==> Class(qs.medium[i]) == 2)
    && (forall i :: 0 <= i < |qs.low| ==> Class(qs.low[i]) == 3)
  }

  lemma {:induction false} PositionAppend(q: seq<Task>, t: Task, u: Task)
    requires t in q
    ensures Position(q + [u], t) == Position(q, t)
    decreases q
  {
    if q[0] != t {
      assert q == [q[0]] + q[1..];
      assert (q + [u])[1..] == q[1..] + [u];
      PositionAppend(q[1..], t, u);
    }
  }

  lemma {:induction false} PositionRemove(q: seq<Task>, t: Task, id: string)
    requires t in q && Find(q, id) != Some(t)
    ensures t in Remove(q, id) && Position(Remove(q, id), t) <= Position(q, t)
    decreases q
  {
    assert q == [q[0]] + q[1..];
    if q[0].id == id {
      assert q[0] != t;
    } else if q[0] != t {
      PositionRemove(q[1..], t, id);
    }
  }

  lemma {:induction false} RemoveShortens(q: seq<Task>, id: string)
    ensures |Remove(q, id)| <= |q|
    decreases q
  {
    if q != [] { RemoveShortens(q[1..], id); }
  }

  /** An arrival puts one more task ahead of a waiting one exactly when its class is strictly more urgent. */
  lemma ArrivalAhead(qs: Queues, t: Task, u: Task)
    requires t in QueueOf(qs, t)
    ensures t in QueueOf(Enqueue(qs, u), t)
    ensures Ahead(Enqueue(qs, u), t) == Ahead(qs, t) + if Class(u) < Class(t) then 1 else 0
  {
    PositionAppend(QueueOf(qs, t), t, u);
  }

  /** A waiting task is handed out exactly when nothing is ahead of it; otherwise there is then one fewer ahead. */
  lemma TakeAhead(qs: Queues, t: Task)
    requires Classed(qs) && t in QueueOf(qs, t)
    ensures GetNextTask(qs).1 == Some(t) <==> Ahead(qs, t) == 0
    ensures GetNextTask(qs).1.Some?
    ensures Ahead(qs, t) > 0 ==> t in QueueOf(GetNextTask(qs).0, t) && Ahead(GetNextTask(qs).0, t) + 1 == Ahead(qs, t)
  {
    var q := QueueOf(qs, t);
    assert q == [q[0]] + q[1..];
  }

  lemma WithdrawAhead(qs: Queues, t: Task, id: string)
    requires t in QueueOf(qs, t) && Withdraw(qs, id).1 != Some(t)
    ensures t in QueueOf(Withdraw(qs, id).0, t) && Ahead(Withdraw(qs, id).0, t) <= Ahead(qs, t)
  {
    hide Find, Remove, Position;
    RemoveShortens(qs.emergency, id);
    RemoveShortens(qs.high, id);
    RemoveShortens(qs.medium, id);
    if Find(QueueOf(qs, t), id) != Some(t) { PositionRemove(QueueOf(qs, t), t, id); }
  }

  lemma ClassedSplit(l: seq<Task>)
    ensures Classed(Split(l))
  {
    OfClassElements(l, 0); OfClassElements(l, 1); OfClassElements(l, 2); OfClassElements(l, 3);
  }

  // The step does not take the task itself out of its queue.
  predicate Leaves(y: System, act: Action, t: Task) {
    match act
    case Take => GetNextTask(y.s.queues).1 != Some(t)
    case Cancel(id, now) => id in y.s.active || Withdraw(y.s.queues, id).1 != Some(t)
    case _ => true
  }

  predicate LeavesAll(y: System, acts: seq<Action>, t: Task)
    requires IsRun(y, acts)
    decreases acts
  {
    acts == [] || (Leaves(y, acts[0], t) && LeavesAll(Next(y, acts[0]), acts[1..], t))
  }

  function Takes(acts: seq<Action>): nat {
    if acts == [] then 0 else (if acts[0].Take? then 1 else 0) + Takes(acts[1..])
  }

  function MoreUrgent(acts: seq<Action>, t: Task): nat {
    if acts == [] then 0 else (if acts[0].Schedule? && Class(acts[0].t) < Class(t) then 1 else 0) + MoreUrgent(acts[1..], t)
  }

  lemma AheadStep(y: System, act: Action, l: seq<Task>, t: Task)
    requires y.s.queues == Split(l) && Enabled(y, act) && t in QueueOf(y.s.queues, t) && Leaves(y, act, t)
    ensures t in QueueOf(Next(y, act).s.queues, t)
    ensures Takes([act]) + Ahead(Next(y, act).s.queues, t) <= Ahead(y.s.queues, t) + MoreUrgent([act], t)
  {
    var qs := y.s.queues;
    assert [act][1..] == [];
    ClassedSplit(l);
    hide Split, Classed, QueueOf, Ahead, Enqueue, GetNextTask, Withdraw;
    match act
    case Schedule(u, was) => ArrivalAhead(qs, t, u);
    case Take => TakeAhead(qs, t);
    case Cancel(id, now) => if id !in y.s.active { WithdrawAhead(qs, t, id); }
    case _ => assert Next(y, act).s.queues == qs;
  }

  /**
   Overtaking is bounded, in every run: as long as a task waits, the tasks taken before it and
   those still ahead of it are together at most those ahead of it at the start and the strictly
   more urgent ones that have arrived since. Tasks of its own class never overtake it.
   */
  lemma {:induction false} OvertakingIsBounded(y: System, acts: seq<Action>, l: seq<Task>, t: Task)
    requires y.s.queues == Split(l) && t in QueueOf(y.s.queues, t) && IsRun(y, acts) && LeavesAll(y, acts, t)
    ensures t in QueueOf(After(y, acts).s.queues, t)
    ensures Takes(acts) + Ahead(After(y, acts).s.queues, t) <= Ahead(y.s.queues, t) + MoreUrgent(acts, t)
    decreases acts
  {
    hide Split, Ahead, QueueOf, Next, Enabled, Leaves, Tracked;
    if acts != [] {
      TrackedStep(y, acts[0], l);
      AheadStep(y, acts[0], l, t);
      assert [acts[0]][1..] == [];
      OvertakingIsBounded(Next(y, acts[0]), acts[1..], Tracked(y, acts[0], l), t);
    }
  }
}
