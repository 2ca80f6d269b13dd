/**
 Four queues as one list: the tasks in the order they were scheduled. The next task is the
 earliest of the most urgent class present, and emptying the queues sorts the list by class,
 keeping the order of scheduling within each class.
 */
module PriorityOrder {
  import opened Wrappers
  import opened Tasks
  import opened SchedulerModel

  // The first priority goes before the second: emergency 0, high 1, medium 2, low 3, and any other number with medium.
  predicate Outranks(p: int, q: int) {
    (0 <= p < q <= 3) || ((p == 0 || p == 1) && (q < 0 || q > 3)) || ((p < 0 || p > 3) && q == 3)
  }

  lemma ClassIsByPriority(t: Task, u: Task)
    ensures Class(t) < Class(u) <==> Outranks(t.priority, u.priority)
  {
  }

  function OfClass(l: seq<Task>, k: nat): seq<Task> {
    if l == [] then [] else if Class(l[0]) == k then [l[0]] + OfClass(l[1..], k) else OfClass(l[1..], k)
  }

  // The queues a list of scheduled tasks is kept in.
  function Split(l: seq<Task>): Queues {
    Queues(OfClass(l, 0), OfClass(l, 1), OfClass(l, 2), OfClass(l, 3))
  }

  function WithoutAt(l: seq<Task>, i: nat): seq<Task>
    requires i < |l|
  {
    l[..i] + l[i + 1..]
  }

  // One position goes before another: a more urgent class, or the same class and earlier.
  predicate Precedes(l: seq<Task>, i: nat, j: nat)
    requires i < |l| && j < |l|
  {
    Class(l[i]) < Class(l[j]) || (Class(l[i]) == Class(l[j]) && i < j)
  }

  ghost predicate Foremost(l: seq<Task>, i: nat) {
    i < |l| && forall j :: 0 <= j < |l| && j != i ==> Precedes(l, i, j)
  }

  // Among the tasks with one ID.
  ghost predicate ForemostOf(l: seq<Task>, id: string, i: nat) {
    i < |l| && l[i].id == id && forall j :: 0 <= j < |l| && j != i && l[j].id == id ==> Precedes(l, i, j)
  }

  lemma {:induction false} OfClassAppend(a: seq<Task>, b: seq<Task>, k: nat)
    ensures OfClass(a + b, k) == OfClass(a, k) + OfClass(b, k)
    decreases a
  {
    if a == [] {
      assert a + b == b;
    } else {
      assert (a + b)[1..] == a[1..] + b;
      OfClassAppend(a[1..], b, k);
    }
  }

  lemma OfClassSplit(l: seq<Task>, i: nat, k: nat)
    requires i < |l|
    ensures OfClass(l, k) == OfClass(l[..i], k) + (if Class(l[i]) == k then [l[i]] else []) + OfClass(l[i + 1..], k)
    ensures OfClass(WithoutAt(l, i), k) == OfClass(l[..i], k) + OfClass(l[i + 1..], k)
  {
    assert l == l[..i] + ([l[i]] + l[i + 1..]);
    OfClassAppend(l[..i], [l[i]] + l[i + 1..], k);
    assert ([l[i]] + l[i + 1..])[1..] == l[i + 1..];
    OfClassAppend(l[..i], l[i + 1..], k);
  }

  lemma {:induction false} OfClassHas(l: seq<Task>, k: nat, t: Task)
    ensures t in OfClass(l, k) <==> t in l && Class(t) == k
    decreases l
  {
    if l != [] {
      OfClassHas(l[1..], k, t);
      assert l == [l[0]] + l[1..];
    }
  }

  lemma {:induction false} OfClassElements(l: seq<Task>, k: nat)
    ensures forall i :: 0 <= i < |OfClass(l, k)| ==> Class(OfClass(l, k)[i]) == k
    ensures (forall i :: 0 <= i < |l| ==> Class(l[i]) != k) ==> OfClass(l, k) == []
    decreases l
  {
    if l != [] {
      OfClassElements(l[1..], k);
      if forall i :: 0 <= i < |l| ==> Class(l[i]) != k {
        forall i | 0 <= i < |l[1..]| ensures Class(l[1..][i]) != k { assert l[1..][i] == l[i + 1]; }
      }
    }
  }

  /** Scheduling a task puts it at the end of the list. */
  lemma EnqueueIsAppend(l: seq<Task>, t: Task)
    ensures Enqueue(Split(l), t) == Split(l + [t])
  {
    assert [t][1..] == [];
    OfClassAppend(l, [t], 0); OfClassAppend(l, [t], 1); OfClassAppend(l, [t], 2); OfClassAppend(l, [t], 3);
  }

  // Where the head of the most urgent nonempty class stands in the list.
  lemma {:induction false} HeadStands(l: seq<Task>, k: nat) returns (i: nat)
    requires OfClass(l, k) != []
    requires forall c :: 0 <= c < k ==> OfClass(l, c) == []
    ensures Foremost(l, i) && l[i] == OfClass(l, k)[0] && Class(l[i]) == k && OfClass(l[..i], k) == []
    decreases l
  {
    if Class(l[0]) == k {
      i := 0;
      forall j | 0 <= j < |l| && j != i ensures Precedes(l, i, j) {
        OfClassHas(l, Class(l[j]), l[j]);
        assert l[j] in l;
      }
    } else {
      forall c | 0 <= c < k ensures OfClass(l[1..], c) == [] {
        assert OfClass(l, c) == [];
      }
      var j := HeadStands(l[1..], k);
      i := j + 1;
      OfClassHas(l, Class(l[0]), l[0]);
      assert l[0] in l;
      assert l[..i][1..] == l[1..][..j];
      forall m | 0 <= m < |l| && m != i ensures Precedes(l, i, m) {
        if m > 0 { assert Precedes(l[1..], j, m - 1); }
      }
    }
  }

  lemma SplitWithoutAt(l: seq<Task>, i: nat)
    requires i < |l|
    ensures forall k :: 0 <= k < 4 && k != Class(l[i]) ==> OfClass(WithoutAt(l, i), k) == OfClass(l, k)
    ensures OfClass(l[..i], Class(l[i])) == [] ==>
              OfClass(l, Class(l[i])) == [l[i]] + OfClass(WithoutAt(l, i), Class(l[i]))
  {
    forall k: nat { OfClassSplit(l, i, k); }
  }

  /** The task handed out is the earliest of the most urgent class present, and it alone leaves the list; nothing is handed out exactly when the list is empty. */
  lemma NextIsForemost(l: seq<Task>) returns (i: nat)
    ensures GetNextTask(Split(l)).1 == None <==> l == []
    ensures l != [] ==> Foremost(l, i) && GetNextTask(Split(l)) == (Split(WithoutAt(l, i)), Some(l[i]))
    ensures l == [] ==> GetNextTask(Split(l)).0 == Split(l)
  {
    i := 0;
    if l != [] {
      OfClassHas(l, Class(l[0]), l[0]);
      assert l[0] in l && OfClass(l, Class(l[0])) != [];
      hide OfClass, Foremost;
      var k := if OfClass(l, 0) != [] then 0 else if OfClass(l, 1) != [] then 1 else if OfClass(l, 2) != [] then 2 else 3;
      i := HeadStands(l, k);
      SplitWithoutAt(l, i);
    } else {
      assert Split(l) == Queues([], [], [], []);
    }
  }

  lemma {:induction false} FirstStands(l: seq<Task>, k: nat, id: string) returns (i: nat)
    requires Find(OfClass(l, k), id).Some?
    ensures i < |l| && l[i].id == id && Class(l[i]) == k && Find(OfClass(l, k), id) == Some(l[i])
    ensures forall j :: 0 <= j < i && Class(l[j]) == k ==> l[j].id != id
    ensures Remove(OfClass(l, k), id) == OfClass(WithoutAt(l, i), k)
    decreases l
  {
    if Class(l[0]) == k && l[0].id == id {
      i := 0;
      assert WithoutAt(l, 0) == l[1..];
    } else {
      if Class(l[0]) == k { assert OfClass(l, k)[1..] == OfClass(l[1..], k); }
      var j := FirstStands(l[1..], k, id);
      i := j + 1;
      assert WithoutAt(l, i) == [l[0]] + WithoutAt(l[1..], j);
      assert WithoutAt(l, i)[1..] == WithoutAt(l[1..], j);
    }
  }

  lemma {:induction false} FindOfClass(l: seq<Task>, j: nat)
    requires j < |l|
    ensures Find(OfClass(l, Class(l[j])), l[j].id).Some?
    decreases l
  {
    if j > 0 {
      FindOfClass(l[1..], j - 1);
      if Class(l[0]) == Class(l[j]) { assert OfClass(l, Class(l[j]))[1..] == OfClass(l[1..], Class(l[j])); }
    }
  }

  ghost predicate Has(l: seq<Task>, id: string) {
    exists i :: 0 <= i < |l| && l[i].id == id
  }

  /** Cancelling takes out of the list the one task with the ID that would have been handed out first, and fails exactly when there is none. */
  lemma WithdrawIsForemost(l: seq<Task>, id: string) returns (i: nat)
    ensures Has(l, id) ==> ForemostOf(l, id, i) && Withdraw(Split(l), id) == (Split(WithoutAt(l, i)), Some(l[i]))
    ensures !Has(l, id) ==> Withdraw(Split(l), id) == (Split(l), None)
  {
    i := 0;
    forall j | 0 <= j < |l| && l[j].id == id ensures Find(OfClass(l, Class(l[j])), id).Some? {
      FindOfClass(l, j);
    }
    hide OfClass, Remove, Find;
    if Withdraw(Split(l), id).1.Some? {
      var k := if Find(OfClass(l, 0), id).Some? then 0 else if Find(OfClass(l, 1), id).Some? then 1 else if Find(OfClass(l, 2), id).Some? then 2 else 3;
      i := FirstStands(l, k, id);
      SplitWithoutAt(l, i);
    }
  }

  // ---------------------------------------------------------------- draining

  ghost predicate Sorted(l: seq<Task>) {
    forall i, j :: 0 <= i < j < |l| ==> Class(l[i]) <= Class(l[j])
  }

  function Waiting(qs: Queues): nat {
    |qs.emergency| + |qs.high| + |qs.medium| + |qs.low|
  }

  // What the scheduler hands out when nothing else arrives.
  function Drained(qs: Queues): seq<Task>
    decreases Waiting(qs)
  {
    var (rest, next) := GetNextTask(qs);
    if next == None then [] else [next.value] + Drained(rest)
  }

  function AllOf(qs: Queues): seq<Task> {
    qs.emergency + (qs.high + (qs.medium + qs.low))
  }

  lemma HeadThenRest(q: seq<Task>, r: seq<Task>)
    ensures if q == [] then q + r == r else q + r == [q[0]] + (q[1..] + r)
  {
  }

  lemma {:induction false} DrainedIsByClass(qs: Queues)
    ensures Drained(qs) == AllOf(qs)
    decreases Waiting(qs)
  {
    var (rest, next) := GetNextTask(qs);
    if next.Some? {
      DrainedIsByClass(rest);
      HeadThenRest(qs.emergency, qs.high + (qs.medium + qs.low));
      HeadThenRest(rest.emergency, rest.high + (rest.medium + rest.low));
      HeadThenRest(qs.high, qs.medium + qs.low);
      HeadThenRest(rest.high, rest.medium + rest.low);
      HeadThenRest(qs.medium, qs.low);
      HeadThenRest(rest.medium, rest.low);
    }
  }

  lemma SmallerClassesAbsent(l: seq<Task>, c: nat)
    requires l != [] && Sorted(l) && c < Class(l[0])
    ensures OfClass(l[1..], c) == []
  {
    forall i | 0 <= i < |l[1..]| ensures Class(l[1..][i]) != c {
      assert l[1..][i] == l[i + 1];
    }
    OfClassElements(l[1..], c);
  }

  // A sorted list is handed out as it stands.
  lemma {:induction false} SortedIsDrained(l: seq<Task>)
    requires Sorted(l)
    ensures Drained(Split(l)) == l
    decreases l
  {
    if l != [] {
      SortedIsDrained(l[1..]);
      forall c: nat | c < Class(l[0]) { SmallerClassesAbsent(l, c); }
      assert GetNextTask(Split(l)) == (Split(l[1..]), Some(l[0])) by {
        assert forall k: nat :: k < 4 ==> OfClass(l, k) == if k == Class(l[0]) then [l[0]] + OfClass(l[1..], k) else OfClass(l[1..], k);
        hide OfClass;
      }
    } else {
      assert Split(l) == Queues([], [], [], []);
    }
  }

  lemma {:induction false} ClassOfClass(l: seq<Task>, k: nat, c: nat)
    ensures OfClass(OfClass(l, k), c) == if c == k then OfClass(l, k) else []
    decreases l
  {
    if l != [] {
      ClassOfClass(l[1..], k, c);
      if Class(l[0]) == k {
        assert ([l[0]] + OfClass(l[1..], k))[1..] == OfClass(l[1..], k);
      }
    }
  }

  lemma AllOfSplit(l: seq<Task>, k: nat)
    requires k < 4
    ensures OfClass(AllOf(Split(l)), k) == OfClass(l, k)
  {
    var a, b, c, d := OfClass(l, 0), OfClass(l, 1), OfClass(l, 2), OfClass(l, 3);
    OfClassAppend(a, b + (c + d), k);
    OfClassAppend(b, c + d, k);
    OfClassAppend(c, d, k);
    ClassOfClass(l, 0, k); ClassOfClass(l, 1, k); ClassOfClass(l, 2, k); ClassOfClass(l, 3, k);
  }

  // Sorted, and no class below a bound.
  ghost predicate SortedFrom(l: seq<Task>, k: nat) {
    Sorted(l) && forall i :: 0 <= i < |l| ==> k <= Class(l[i])
  }

  lemma SortedJoin(a: seq<Task>, k: nat, b: seq<Task>)
    requires forall i :: 0 <= i < |a| ==> Class(a[i]) == k
    requires SortedFrom(b, k)
    ensures SortedFrom(a + b, k)
  {
  }

  lemma AllOfSorted(l: seq<Task>)
    ensures Sorted(AllOf(Split(l)))
  {
    OfClassElements(l, 0); OfClassElements(l, 1); OfClassElements(l, 2); OfClassElements(l, 3);
    hide OfClass, Sorted;
    var qs := Split(l);
    assert SortedFrom(qs.low, 3) by { SortedJoin(qs.low, 3, []); assert qs.low + [] == qs.low; }
    SortedJoin(qs.medium, 2, qs.low);
    SortedJoin(qs.high, 1, qs.medium + qs.low);
    SortedJoin(qs.emergency, 0, qs.high + (qs.medium + qs.low));
  }

  /**
   Handing out everything is the stable sort by class of the list of scheduled tasks: sorted,
   the tasks of each class in the order they were scheduled, and no other list is both.
   */
  lemma DrainIsStableSort(l: seq<Task>, d: seq<Task>)
    ensures d == Drained(Split(l)) <==> Sorted(d) && (forall k :: 0 <= k < 4 ==> OfClass(d, k) == OfClass(l, k))
  {
    DrainedIsByClass(Split(l));
    AllOfSorted(l);
    AllOfSplit(l, 0); AllOfSplit(l, 1); AllOfSplit(l, 2); AllOfSplit(l, 3);
    if Sorted(d) { SortedIsDrained(d); }
    hide OfClass, Sorted;
    assert forall k :: 0 <= k < 4 ==> OfClass(AllOf(Split(l)), k) == OfClass(l, k);
    if forall k :: 0 <= k < 4 ==> OfClass(d, k) == OfClass(l, k) {
      assert OfClass(d, 0) == OfClass(l, 0) && OfClass(d, 1) == OfClass(l, 1) && OfClass(d, 2) == OfClass(l, 2) && OfClass(d, 3) == OfClass(l, 3);
      assert Split(d) == Split(l);
    }
  }

  lemma MultisetOfAll(qs: Queues)
    ensures multiset(AllOf(qs)) == multiset(qs.emergency) + multiset(qs.high) + multiset(qs.medium) + multiset(qs.low)
  {
    assert multiset(qs.medium + qs.low) == multiset(qs.medium) + multiset(qs.low);
    assert multiset(qs.high + (qs.medium + qs.low)) == multiset(qs.high) + multiset(qs.medium + qs.low);
  }

  lemma {:induction false} SameTasks(l: seq<Task>)
    ensures multiset(OfClass(l, 0)) + multiset(OfClass(l, 1)) + multiset(OfClass(l, 2)) + multiset(OfClass(l, 3)) == multiset(l)
    decreases l
  {
    if l != [] {
      SameTasks(l[1..]);
      assert l == [l[0]] + l[1..];
      hide OfClass, Class;
      BagOfClass(l, 0); BagOfClass(l, 1); BagOfClass(l, 2); BagOfClass(l, 3);
      var rest := l[1..];
      OneMoreBag(l[0], Class(l[0]), multiset(OfClass(rest, 0)), multiset(OfClass(rest, 1)), multiset(OfClass(rest, 2)), multiset(OfClass(rest, 3)));
    }
  }

  function WithOne(t: Task, here: bool, bag: multiset<Task>): multiset<Task> {
    if here then multiset{t} + bag else bag
  }

  lemma BagOfClass(l: seq<Task>, k: nat)
    requires l != []
    ensures multiset(OfClass(l, k)) == WithOne(l[0], Class(l[0]) == k, multiset(OfClass(l[1..], k)))
  {
  }

  lemma OneMoreBag(t: Task, k: nat, a: multiset<Task>, b: multiset<Task>, c: multiset<Task>, d: multiset<Task>)
    requires k < 4
    ensures WithOne(t, k == 0, a) + WithOne(t, k == 1, b) + WithOne(t, k == 2, c) + WithOne(t, k == 3, d) == multiset{t} + (a + b + c + d)
  {
  }

  /** Handing out everything hands out exactly the tasks that were waiting. */
  lemma DrainIsPermutation(l: seq<Task>)
    ensures multiset(Drained(Split(l))) == multiset(l)
  {
    DrainedIsByClass(Split(l));
    SameTasks(l);
    MultisetOfAll(Split(l));
  }
}
