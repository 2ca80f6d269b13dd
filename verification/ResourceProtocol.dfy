/**
 Any number of tasks allocating and releasing at once. Checking one resource, allocating
 one and releasing one are single steps under the manager's lock; the steps of different
 tasks interleave freely. The manager records the same holder for everyone, so the model
 keeps, beside the table, what each task believes it holds.
 */
module ResourceProtocol {
  import opened ResourceTable
  import opened ResourceAllocation

  type Task = nat

  // Where a task is inside AllocateForTask; `done` remembers what the call has taken so far.
  datatype Phase =
    | Idle
    | Checking(req: Request, todo: seq<Key>)
    | Allocating(req: Request, done: seq<Key>, todo: seq<Key>)
    | RollingBack(todo: seq<Key>)

  datatype World = World(table: Table, phases: map<Task, Phase>, holdings: map<Task, set<Key>>)
  {
    function PhaseOf(a: Task): Phase {
      if a in phases then phases[a] else Idle
    }

    function Holds(a: Task): set<Key> {
      if a in holdings then holdings[a] else {}
    }

    function GoTo(a: Task, p: Phase): World {
      this.(phases := phases[a := p])
    }

    function WithHoldings(a: Task, t: Table, ks: set<Key>): World {
      this.(table := t, holdings := holdings[a := ks])
    }
  }

  function Start(t: Table): World {
    World(t, map[], map[])
  }

  datatype Action =
    | Begin(a: Task, req: Request, order: seq<string>)
    | Check(a: Task)
    | StartAllocating(a: Task, order: seq<string>)
    | AllocateOne(a: Task, undo: seq<string>)
    | Finish(a: Task)
    | UndoOne(a: Task)
    | GiveBack(a: Task, k: Key)

  // A request all of whose resources have one type.
  ghost predicate OneType(req: Request) {
    forall x, y :: x in req && y in req && req[x] != [] && req[y] != [] ==> x == y
  }

  // Whoever names a registered resource names no resource of another type.
  ghost predicate Confined(registered: set<Key>, req: Request) {
    forall x, y, i :: x in req && y in req && x != y && req[y] != [] && 0 <= i < |req[x]| ==> Key(x, req[x][i]) !in registered
  }

  // Tasks may issue the request under study, and otherwise confined requests.
  ghost predicate Enabled(w: World, act: Action, studied: Request) {
    match act
    case Begin(a, req, order) => w.PhaseOf(a).Idle? && IsOrder(order, req) && (req == studied || Confined(w.table.Keys, req))
    case Check(a) => w.PhaseOf(a).Checking? && w.PhaseOf(a).todo != []
    case StartAllocating(a, order) => w.PhaseOf(a).Checking? && w.PhaseOf(a).todo == [] && IsOrder(order, w.PhaseOf(a).req)
    case AllocateOne(a, undo) => w.PhaseOf(a).Allocating? && w.PhaseOf(a).todo != [] && IsOrder(undo, w.PhaseOf(a).req)
    case Finish(a) => (w.PhaseOf(a).Allocating? || w.PhaseOf(a).RollingBack?) && w.PhaseOf(a).todo == []
    case UndoOne(a) => w.PhaseOf(a).RollingBack? && w.PhaseOf(a).todo != []
    case GiveBack(a, k) => w.PhaseOf(a).Idle? && k in w.Holds(a)
  }

  function Next(w: World, act: Action, ghost studied: Request): World
    requires Enabled(w, act, studied)
  {
    match act
    case Begin(a, req, order) => w.GoTo(a, Checking(req, Flat(req, order)))
    case Check(a) =>
      var p := w.PhaseOf(a);
      w.GoTo(a, if Busy(w.table, p.todo[0]) then Idle else Checking(p.req, p.todo[1..]))
    case StartAllocating(a, order) =>
      var p := w.PhaseOf(a);
      w.GoTo(a, Allocating(p.req, [], Flat(p.req, order)))
    case AllocateOne(a, undo) =>
      var p := w.PhaseOf(a);
      var k := p.todo[0];
      if CanAllocate(w.table, k)
      then w.WithHoldings(a, Allocated(w.table, k), w.Holds(a) + {k}).GoTo(a, Allocating(p.req, p.done + [k], p.todo[1..]))
      else w.GoTo(a, RollingBack(RollbackFlat(p.req, undo, k)))
    case Finish(a) => w.GoTo(a, Idle)
    case UndoOne(a) =>
      var p := w.PhaseOf(a);
      w.WithHoldings(a, Released(w.table, p.todo[0]), w.Holds(a) - {p.todo[0]}).GoTo(a, RollingBack(p.todo[1..]))
    case GiveBack(a, k) => w.WithHoldings(a, Released(w.table, k), w.Holds(a) - {k})
  }

  ghost predicate IsRun(w: World, acts: seq<Action>, studied: Request)
    decreases acts
  {
    acts == [] || (Enabled(w, acts[0], studied) && IsRun(Next(w, acts[0], studied), acts[1..], studied))
  }

  ghost function After(w: World, acts: seq<Action>, studied: Request): World
    requires IsRun(w, acts, studied)
    decreases acts
  {
    if acts == [] then w else After(Next(w, acts[0], studied), acts[1..], studied)
  }

  // No resource is held by two tasks.
  ghost predicate Exclusive(w: World) {
    forall a, b, k {:trigger k in w.Holds(a), k in w.Holds(b)} :: a != b && k in w.Holds(a) ==> k !in w.Holds(b)
  }

  // The rollback step would free what another task holds.
  ghost predicate Steals(w: World, act: Action) {
    act.UndoOne? && w.PhaseOf(act.a).RollingBack? && w.PhaseOf(act.a).todo != []
    && exists b :: b != act.a && w.PhaseOf(act.a).todo[0] in w.Holds(b)
  }

  // ---------------------------------------------------------------- one type at a time is safe

  // A confined request names one type only, or nothing that is registered.
  lemma ConfinedCases(registered: set<Key>, req: Request)
    requires Confined(registered, req)
    ensures OneType(req) || forall k :: Asks(req, k) ==> k !in registered
  {
    if !OneType(req) {
      var x, y :| x in req && y in req && req[x] != [] && req[y] != [] && x != y;
      forall k | Asks(req, k) ensures k !in registered {
        var i :| 0 <= i < |req[k.rtype]| && req[k.rtype][i] == k.id;
        var z := if k.rtype == x then y else x;
        assert k == Key(k.rtype, req[k.rtype][i]) && z != k.rtype;
      }
    }
  }

  // What a task's phase promises. Orphans are resources taken from the start, by nobody.
  ghost predicate Sound(w: World, a: Task, orphans: set<Key>) {
    match w.PhaseOf(a)
    case Idle => true
    case Checking(req, todo) => Confined(w.table.Keys, req) || exists k :: k in orphans && k in todo
    case Allocating(req, done, todo) =>
      && Confined(w.table.Keys, req) && Distinct(done) && Elements(done) <= w.Holds(a)
      && exists order :: IsOrder(order, req) && done + todo == Flat(req, order)
    case RollingBack(todo) => (Distinct(todo) && Elements(todo) <= w.Holds(a)) || forall k :: k in todo ==> k !in w.table
  }

  ghost predicate Invariant(w: World, orphans: set<Key>) {
    && Exclusive(w)
    && (forall a, k {:trigger k in w.Holds(a)} :: k in w.Holds(a) ==> Busy(w.table, k) && k !in orphans)
    && (forall k :: k in orphans ==> Busy(w.table, k))
    && (forall a :: Sound(w, a, orphans))
  }

  // The list of the only type, if there is one.
  lemma {:induction false} OnlyList(req: Request, order: seq<string>, x: string)
    requires forall y :: y in order ==> y in req && (y != x ==> req[y] == [])
    requires Distinct(order)
    ensures Flat(req, order) == if x in order then KeysOf(x, req[x]) else []
    decreases order
  {
    if order != [] {
      OnlyList(req, order[1..], x);
      HeadOrRest(order, x);
      hide Distinct;
    }
  }

  lemma {:induction false} OnlyRollback(req: Request, order: seq<string>, x: string, failed: Key)
    requires forall y :: y in order ==> y in req && (y != x ==> req[y] == [])
    requires Distinct(order)
    ensures RollbackFlat(req, order, failed) == if x in order then KeysOf(x, Undone(x, req[x], failed)) else []
    decreases order
  {
    if order != [] {
      OnlyRollback(req, order[1..], x, failed);
      HeadOrRest(order, x);
      if order[0] != x { assert Undone(order[0], req[order[0]], failed) == []; }
      hide Distinct, Undone;
    }
  }

  lemma HeadOrRest(order: seq<string>, x: string)
    requires order != [] && Distinct(order)
    ensures x in order <==> x == order[0] || x in order[1..]
    ensures x == order[0] ==> x !in order[1..]
  {
  }

  lemma {:induction false} BeforeIsPrefix(ids: seq<string>, id: string, j: nat)
    requires j < |ids| && ids[j] == id
    ensures Before(ids, id) <= ids[..j]
    decreases ids
  {
    if ids[0] != id {
      BeforeIsPrefix(ids[1..], id, j - 1);
      assert ids[..j] == [ids[0]] + ids[1..][..j - 1];
    }
  }

  // With one type, rollback visits a part of what the call has taken, and nothing else.
  lemma RollbackIsPrefix(req: Request, order: seq<string>, undo: seq<string>, done: seq<Key>, todo: seq<Key>)
    requires OneType(req) && IsOrder(order, req) && IsOrder(undo, req)
    requires done + todo == Flat(req, order) && todo != []
    ensures RollbackFlat(req, undo, todo[0]) <= done
  {
    var failed := todo[0];
    assert failed == Flat(req, order)[|done|];
    FlatHas(req, order, failed);
    var x := failed.rtype;
    forall y | y in req && y != x ensures req[y] == [] {}
    OnlyList(req, order, x);
    OnlyRollback(req, undo, x, failed);
    hide Flat, RollbackFlat, IsOrder, OneType, Before;
    KeysBeforeFailure(x, req[x], done, todo);
  }

  lemma KeysBeforeFailure(x: string, ids: seq<string>, done: seq<Key>, todo: seq<Key>)
    requires done + todo == KeysOf(x, ids) && todo != []
    ensures KeysOf(x, Before(ids, todo[0].id)) <= done
  {
    var j := |done|;
    assert (done + todo)[j] == todo[0] == KeysOf(x, ids)[j];
    BeforeIsPrefix(ids, todo[0].id, j);
    var cut := Before(ids, todo[0].id);
    forall i | 0 <= i < |cut| ensures KeysOf(x, cut)[i] == done[i] {
      assert cut[i] == ids[i];
      assert (done + todo)[i] == KeysOf(x, ids)[i];
    }
  }

  // A step of one task keeps the invariant when the others keep their resources.
  lemma OthersStand(w: World, w': World, a: Task, orphans: set<Key>)
    requires Invariant(w, orphans) && Sound(w', a, orphans) && w'.table.Keys == w.table.Keys
    requires forall b :: b != a ==> w'.PhaseOf(b) == w.PhaseOf(b) && w'.Holds(b) == w.Holds(b)
    requires forall k :: k in w'.Holds(a) ==> Busy(w'.table, k) && k !in orphans
    requires forall k :: k in orphans ==> Busy(w'.table, k)
    requires forall b, k {:trigger k in w.Holds(b)} :: b != a && k in w.Holds(b) ==> k !in w'.Holds(a) && Busy(w'.table, k)
    ensures Invariant(w', orphans)
  {
    forall b ensures Sound(w', b, orphans) {
      if b != a { assert Sound(w, b, orphans); }
    }
  }

  // So does a step that only moves a task to another phase.
  lemma PhaseStands(w: World, a: Task, p: Phase, orphans: set<Key>)
    requires Invariant(w, orphans) && Sound(w.GoTo(a, p), a, orphans)
    ensures Invariant(w.GoTo(a, p), orphans)
  {
    var w' := w.GoTo(a, p);
    assert w'.table == w.table && forall b :: w'.Holds(b) == w.Holds(b);
    assert forall b :: b != a ==> w'.PhaseOf(b) == w.PhaseOf(b);
    hide Sound;
    OthersStand(w, w', a, orphans);
  }

  // A request may begin: it is confined, or it asks for an orphan.
  ghost predicate Admitted(w: World, req: Request, orphans: set<Key>) {
    Confined(w.table.Keys, req) || exists k :: k in orphans && Asks(req, k)
  }

  lemma BeginStep(w: World, a: Task, req: Request, order: seq<string>, studied: Request, orphans: set<Key>)
    requires Invariant(w, orphans) && Admitted(w, studied, orphans) && Enabled(w, Begin(a, req, order), studied)
    ensures Invariant(Next(w, Begin(a, req, order), studied), orphans)
  {
    var w' := Next(w, Begin(a, req, order), studied);
    if !Confined(w.table.Keys, req) {
      var k :| k in orphans && Asks(req, k);
      FlatHas(req, order, k);
    }
    PhaseStands(w, a, Checking(req, Flat(req, order)), orphans);
  }

  lemma CheckStep(w: World, a: Task, studied: Request, orphans: set<Key>)
    requires Invariant(w, orphans) && Enabled(w, Check(a), studied)
    ensures Invariant(Next(w, Check(a), studied), orphans)
  {
    var w' := Next(w, Check(a), studied);
    var p := w.PhaseOf(a);
    assert Sound(w, a, orphans);
    assert Sound(w', a, orphans) by {
      if !Confined(w.table.Keys, p.req) && !Busy(w.table, p.todo[0]) {
        var k :| k in orphans && k in p.todo;
        assert p.todo == [p.todo[0]] + p.todo[1..];
        assert k in p.todo[1..];
      }
    }
    PhaseStands(w, a, w'.PhaseOf(a), orphans);
  }

  lemma InvariantStep(w: World, act: Action, studied: Request, orphans: set<Key>)
    requires Invariant(w, orphans) && Admitted(w, studied, orphans) && Enabled(w, act, studied)
    ensures Invariant(Next(w, act, studied), orphans) && Admitted(Next(w, act, studied), studied, orphans)
    ensures !Steals(w, act)
  {
    var w' := Next(w, act, studied);
    var a := act.a;
    assert w'.table.Keys == w.table.Keys;
    match act
    case Begin(_, req, order) => BeginStep(w, a, req, order, studied, orphans);
    case Check(_) => CheckStep(w, a, studied, orphans);
    case StartAllocating(_, order) => StartAllocatingStep(w, a, order, studied, orphans);
    case AllocateOne(_, undo) => AllocateOneStep(w, a, undo, studied, orphans);
    case Finish(_) => PhaseStands(w, a, Idle, orphans);
    case UndoOne(_) => UndoOneStep(w, a, studied, orphans);
    case GiveBack(_, k) => GiveBackStep(w, a, k, studied, orphans);
  }

  lemma StartAllocatingStep(w: World, a: Task, order: seq<string>, studied: Request, orphans: set<Key>)
    requires Invariant(w, orphans) && Enabled(w, StartAllocating(a, order), studied)
    ensures Invariant(Next(w, StartAllocating(a, order), studied), orphans)
  {
    assert Sound(w, a, orphans);
    assert [] + Flat(w.PhaseOf(a).req, order) == Flat(w.PhaseOf(a).req, order);
    PhaseStands(w, a, Allocating(w.PhaseOf(a).req, [], Flat(w.PhaseOf(a).req, order)), orphans);
  }

  lemma GiveBackStep(w: World, a: Task, k: Key, studied: Request, orphans: set<Key>)
    requires Invariant(w, orphans) && Enabled(w, GiveBack(a, k), studied)
    ensures Invariant(Next(w, GiveBack(a, k), studied), orphans)
  {
    var w' := Next(w, GiveBack(a, k), studied);
    assert w'.Holds(a) == w.Holds(a) - {k};
    OthersStand(w, w', a, orphans);
  }

  lemma AllocateOneStep(w: World, a: Task, undo: seq<string>, studied: Request, orphans: set<Key>)
    requires Invariant(w, orphans) && Enabled(w, AllocateOne(a, undo), studied)
    ensures Invariant(Next(w, AllocateOne(a, undo), studied), orphans)
  {
    var p := w.PhaseOf(a);
    assert Sound(w, a, orphans);
    var order :| IsOrder(order, p.req) && p.done + p.todo == Flat(p.req, order);
    if CanAllocate(w.table, p.todo[0]) {
      TakeOneStep(w, a, undo, studied, order, orphans);
    } else {
      FailStep(w, a, undo, studied, order, orphans);
    }
  }

  lemma TakeOneStep(w: World, a: Task, undo: seq<string>, studied: Request, order: seq<string>, orphans: set<Key>)
    requires Invariant(w, orphans) && Enabled(w, AllocateOne(a, undo), studied)
    requires var p := w.PhaseOf(a);
             CanAllocate(w.table, p.todo[0]) && IsOrder(order, p.req) && p.done + p.todo == Flat(p.req, order)
    ensures Invariant(Next(w, AllocateOne(a, undo), studied), orphans)
  {
    var w' := Next(w, AllocateOne(a, undo), studied);
    assert w'.Holds(a) == w.Holds(a) + {w.PhaseOf(a).todo[0]};
    assert w'.table.Keys == w.table.Keys;
    TakenIsSound(w, a, undo, studied, order, orphans);
    hide Flat, IsOrder, Sound, Confined;
    OthersStand(w, w', a, orphans);
  }

  lemma TakenIsSound(w: World, a: Task, undo: seq<string>, studied: Request, order: seq<string>, orphans: set<Key>)
    requires Invariant(w, orphans) && Enabled(w, AllocateOne(a, undo), studied)
    requires var p := w.PhaseOf(a);
             CanAllocate(w.table, p.todo[0]) && IsOrder(order, p.req) && p.done + p.todo == Flat(p.req, order)
    ensures Sound(Next(w, AllocateOne(a, undo), studied), a, orphans)
  {
    var p := w.PhaseOf(a);
    var w' := Next(w, AllocateOne(a, undo), studied);
    assert Sound(w, a, orphans);
    assert p.todo[0] !in w.Holds(a);
    hide Flat, IsOrder, Confined, Distinct, Elements;
    assert w'.table.Keys == w.table.Keys;
    assert (p.done + [p.todo[0]]) + p.todo[1..] == p.done + p.todo;
    DoneGrows(p.done, p.todo[0], w.Holds(a));
  }

  lemma DoneGrows(done: seq<Key>, k: Key, held: set<Key>)
    requires Distinct(done) && Elements(done) <= held && k !in held
    ensures Distinct(done + [k]) && Elements(done + [k]) <= held + {k}
  {
    assert k !in Elements(done);
    assert Elements(done + [k]) == Elements(done) + {k};
  }

  // What a failing call rolls back is its own, or not registered at all.
  lemma FailStep(w: World, a: Task, undo: seq<string>, studied: Request, order: seq<string>, orphans: set<Key>)
    requires Invariant(w, orphans) && Enabled(w, AllocateOne(a, undo), studied)
    requires var p := w.PhaseOf(a);
             !CanAllocate(w.table, p.todo[0]) && IsOrder(order, p.req) && p.done + p.todo == Flat(p.req, order)
    ensures Invariant(Next(w, AllocateOne(a, undo), studied), orphans)
  {
    var p := w.PhaseOf(a);
    var w' := Next(w, AllocateOne(a, undo), studied);
    assert Sound(w, a, orphans);
    var back := RollbackFlat(p.req, undo, p.todo[0]);
    RollbackIsOwn(w.table.Keys, p.req, order, undo, p.done, p.todo);
    assert w' == w.GoTo(a, RollingBack(back));
    hide Flat, RollbackFlat, IsOrder, OneType, Confined;
    PhaseStands(w, a, RollingBack(back), orphans);
  }

  lemma RollbackIsOwn(registered: set<Key>, req: Request, order: seq<string>, undo: seq<string>, done: seq<Key>, todo: seq<Key>)
    requires Confined(registered, req) && IsOrder(order, req) && IsOrder(undo, req) && Distinct(done)
    requires done + todo == Flat(req, order) && todo != []
    ensures var back := RollbackFlat(req, undo, todo[0]);
            (Distinct(back) && Elements(back) <= Elements(done)) || forall k :: k in back ==> k !in registered
  {
    var back := RollbackFlat(req, undo, todo[0]);
    ConfinedCases(registered, req);
    if OneType(req) {
      RollbackIsPrefix(req, order, undo, done, todo);
      assert back == done[..|back|];
    } else {
      forall k | k in back ensures k !in registered {
        RollbackAsked(req, undo, todo[0], k);
      }
    }
  }

  lemma RollbackAsked(req: Request, undo: seq<string>, failed: Key, k: Key)
    requires IsOrder(undo, req) && k in RollbackFlat(req, undo, failed)
    ensures Asks(req, k)
  {
    RollbackHas(req, undo, failed, k);
    BeforeSubset(req[k.rtype], failed.id, k.id);
  }

  lemma UndoOneStep(w: World, a: Task, studied: Request, orphans: set<Key>)
    requires Invariant(w, orphans) && Enabled(w, UndoOne(a), studied)
    ensures Invariant(Next(w, UndoOne(a), studied), orphans)
    ensures !Steals(w, UndoOne(a))
  {
    var p := w.PhaseOf(a);
    var w' := Next(w, UndoOne(a), studied);
    assert Sound(w, a, orphans);
    assert w'.Holds(a) == w.Holds(a) - {p.todo[0]};
    assert p.todo == [p.todo[0]] + p.todo[1..];
    if Distinct(p.todo) && Elements(p.todo) <= w.Holds(a) {
      assert p.todo[0] in w.Holds(a) by { assert p.todo[0] in Elements(p.todo); }
      forall i | 0 <= i < |p.todo[1..]| ensures p.todo[1..][i] in w'.Holds(a) {
        assert p.todo[1..][i] == p.todo[i + 1] && p.todo[0] != p.todo[i + 1] && p.todo[i + 1] in Elements(p.todo);
      }
    } else {
      assert p.todo[0] !in w.table;
    }
    OthersStand(w, w', a, orphans);
  }

  lemma {:induction false} InvariantRun(w: World, acts: seq<Action>, studied: Request, orphans: set<Key>)
    requires Invariant(w, orphans) && Admitted(w, studied, orphans) && IsRun(w, acts, studied)
    ensures Invariant(After(w, acts, studied), orphans) && Admitted(After(w, acts, studied), studied, orphans)
    decreases acts
  {
    hide Invariant, Admitted, Enabled, Next;
    if acts != [] {
      InvariantStep(w, acts[0], studied, orphans);
      InvariantRun(Next(w, acts[0], studied), acts[1..], studied, orphans);
    }
  }

  // The request under study is confined, or it asks for something that is taken before any task runs.
  ghost predicate Harmless(t: Table, studied: Request) {
    Confined(t.Keys, studied) || exists k :: Asks(studied, k) && Busy(t, k)
  }

  lemma InvariantFromStart(t: Table, studied: Request, acts: seq<Action>) returns (orphans: set<Key>)
    requires Harmless(t, studied) && IsRun(Start(t), acts, studied)
    ensures Invariant(After(Start(t), acts, studied), orphans) && Admitted(After(Start(t), acts, studied), studied, orphans)
  {
    orphans := set k | k in t && Busy(t, k);
    assert Invariant(Start(t), orphans);
    InvariantRun(Start(t), acts, studied, orphans);
  }

  /** With harmless requests, no rollback step of any run frees what another task holds. */
  lemma NoRollbackSteals(t: Table, acts: seq<Action>, act: Action, studied: Request)
    requires Harmless(t, studied) && IsRun(Start(t), acts, studied)
    requires Enabled(After(Start(t), acts, studied), act, studied)
    ensures !Steals(After(Start(t), acts, studied), act)
  {
    var orphans := InvariantFromStart(t, studied, acts);
    InvariantStep(After(Start(t), acts, studied), act, studied, orphans);
  }

  // ---------------------------------------------------------------- two types are not

  lemma {:induction false} RunAppend(w: World, a: seq<Action>, b: seq<Action>, studied: Request)
    requires IsRun(w, a, studied) && IsRun(After(w, a, studied), b, studied)
    ensures IsRun(w, a + b, studied) && After(w, a + b, studied) == After(After(w, a, studied), b, studied)
    decreases a
  {
    if a == [] {
      assert a + b == b;
    } else {
      assert (a + b)[1..] == a[1..] + b;
      RunAppend(Next(w, a[0], studied), a[1..], b, studied);
    }
  }

  // A single resource as a request of its own.
  function JustOne(k: Key): Request {
    map[k.rtype := [k.id]]
  }

  lemma JustOneFlat(k: Key)
    ensures Flat(JustOne(k), [k.rtype]) == [k] && IsOrder([k.rtype], JustOne(k)) && OneType(JustOne(k))
  {
    assert [k.rtype][1..] == [] && KeysOf(k.rtype, JustOne(k)[k.rtype]) == [k];
  }

  // An idle task whose check has passed takes the resource.
  lemma GrabChecked(w: World, b: Task, k: Key, studied: Request) returns (acts: seq<Action>)
    requires w.PhaseOf(b) == Allocating(JustOne(k), [], [k]) && CanAllocate(w.table, k)
    ensures IsRun(w, acts, studied)
    ensures var w' := After(w, acts, studied);
            && w'.table == Allocated(w.table, k) && k in w'.Holds(b) && w'.PhaseOf(b).Idle?
            && forall c :: c != b ==> w'.PhaseOf(c) == w.PhaseOf(c) && w'.Holds(c) == w.Holds(c)
  {
    JustOneFlat(k);
    hide Flat, IsOrder, OneType, JustOne;
    assert [k][1..] == [];
    var w4 := Next(w, AllocateOne(b, [k.rtype]), studied);
    OneMore(w4, Finish(b), [], studied);
    assert After(w4, [Finish(b)], studied) == Next(w4, Finish(b), studied);
    OneMore(w, AllocateOne(b, [k.rtype]), [Finish(b)], studied);
    acts := [AllocateOne(b, [k.rtype])] + [Finish(b)];
  }

  // An idle task takes one free resource for itself, all other tasks standing still.
  lemma GrabOne(w: World, b: Task, k: Key, studied: Request) returns (acts: seq<Action>)
    requires w.PhaseOf(b).Idle? && CanAllocate(w.table, k)
    ensures IsRun(w, acts, studied)
    ensures var w' := After(w, acts, studied);
            && w'.table == Allocated(w.table, k) && k in w'.Holds(b) && w'.PhaseOf(b).Idle?
            && forall c :: c != b ==> w'.PhaseOf(c) == w.PhaseOf(c) && w'.Holds(c) == w.Holds(c)
  {
    JustOneFlat(k);
    hide Flat, IsOrder, OneType, JustOne, IsRun, After;
    var req, order := JustOne(k), [k.rtype];
    assert [k][1..] == [];
    var w1 := Next(w, Begin(b, req, order), studied);
    var w2 := Next(w1, Check(b), studied);
    var w3 := Next(w2, StartAllocating(b, order), studied);
    acts := GrabChecked(w3, b, k, studied);
    OneMore(w2, StartAllocating(b, order), acts, studied);
    acts := [StartAllocating(b, order)] + acts;
    OneMore(w1, Check(b), acts, studied);
    acts := [Check(b)] + acts;
    OneMore(w, Begin(b, req, order), acts, studied);
    acts := [Begin(b, req, order)] + acts;
  }

  lemma OneMore(w: World, act: Action, acts: seq<Action>, studied: Request)
    requires Enabled(w, act, studied) && IsRun(Next(w, act, studied), acts, studied)
    ensures IsRun(w, [act] + acts, studied)
    ensures After(w, [act] + acts, studied) == After(Next(w, act, studied), acts, studied)
  {
    assert ([act] + acts)[1..] == acts;
  }

  // With nothing taken that it asks for, a task gets through its check loop.
  lemma {:induction false} CheckAll(w: World, a: Task, studied: Request) returns (acts: seq<Action>)
    requires w.PhaseOf(a).Checking? && forall k :: k in w.PhaseOf(a).todo ==> !Busy(w.table, k)
    ensures IsRun(w, acts, studied)
    ensures var w' := After(w, acts, studied);
            && w'.PhaseOf(a) == Checking(w.PhaseOf(a).req, []) && w'.table == w.table
            && forall c :: (c != a ==> w'.PhaseOf(c) == w.PhaseOf(c)) && w'.Holds(c) == w.Holds(c)
    decreases |w.PhaseOf(a).todo|
  {
    var todo := w.PhaseOf(a).todo;
    if todo == [] {
      acts := [];
    } else {
      assert todo == [todo[0]] + todo[1..];
      var rest := CheckAll(Next(w, Check(a), studied), a, studied);
      OneMore(w, Check(a), rest, studied);
      acts := [Check(a)] + rest;
    }
  }

  // Rolling back what nobody has taken changes nothing.
  lemma {:induction false} UndoFree(w: World, a: Task, n: nat, studied: Request) returns (acts: seq<Action>)
    requires w.PhaseOf(a).RollingBack? && n <= |w.PhaseOf(a).todo|
    requires forall i :: 0 <= i < n ==> !Busy(w.table, w.PhaseOf(a).todo[i])
    ensures IsRun(w, acts, studied)
    ensures var w' := After(w, acts, studied);
            && w'.PhaseOf(a) == RollingBack(w.PhaseOf(a).todo[n..]) && w'.table == w.table
            && forall c :: c != a ==> w'.PhaseOf(c) == w.PhaseOf(c) && w'.Holds(c) == w.Holds(c)
    decreases n
  {
    var todo := w.PhaseOf(a).todo;
    if n == 0 {
      assert todo[0..] == todo;
      acts := [];
    } else {
      UndoOneFree(w, a, studied);
      hide Enabled, Next, IsRun, After;
      var w1 := Next(w, UndoOne(a), studied);
      assert forall i :: 0 <= i < n - 1 ==> todo[1..][i] == todo[i + 1];
      assert todo[1..][n - 1..] == todo[n..];
      var rest := UndoFree(w1, a, n - 1, studied);
      OneMore(w, UndoOne(a), rest, studied);
      acts := [UndoOne(a)] + rest;
    }
  }

  lemma UndoOneFree(w: World, a: Task, studied: Request)
    requires w.PhaseOf(a).RollingBack? && w.PhaseOf(a).todo != [] && !Busy(w.table, w.PhaseOf(a).todo[0])
    ensures Enabled(w, UndoOne(a), studied)
    ensures var w' := Next(w, UndoOne(a), studied);
            && w'.PhaseOf(a) == RollingBack(w.PhaseOf(a).todo[1..]) && w'.table == w.table
            && forall c :: c != a ==> w'.PhaseOf(c) == w.PhaseOf(c) && w'.Holds(c) == w.Holds(c)
  {
  }

  // The request is checked while nothing it asks for is taken, and comes to allocate a list of one type first.
  lemma Checked(t: Table, studied: Request, y: string) returns (acts: seq<Action>)
    requires y in studied && studied[y] != [] && forall k :: Asks(studied, k) ==> !Busy(t, k)
    ensures IsRun(Start(t), acts, studied)
    ensures var w := After(Start(t), acts, studied);
            && w.table == t && (forall c :: c != 0 ==> w.PhaseOf(c).Idle?)
            && w.PhaseOf(0).Allocating? && w.PhaseOf(0).req == studied
            && w.PhaseOf(0).todo != [] && w.PhaseOf(0).todo[0] == Key(y, studied[y][0])
  {
    var order := OrderStarting(y, studied);
    var w0 := Start(t);
    var w1 := Next(w0, Begin(0, studied, order), studied);
    forall k | k in Flat(studied, order) ensures !Busy(t, k) { FlatHas(studied, order, k); }
    assert Flat(studied, order)[0] == KeysOf(y, studied[y])[0];
    assert forall c :: c != 0 ==> w1.PhaseOf(c) == Idle;
    var checks := CheckAll(w1, 0, studied);
    hide IsRun, After, Flat, IsOrder;
    var w2 := After(w1, checks, studied);
    RunSnoc(w1, checks, StartAllocating(0, order), studied);
    acts := checks + [StartAllocating(0, order)];
    var w3 := Next(w2, StartAllocating(0, order), studied);
    assert w3.table == t && forall c :: c != 0 ==> w3.PhaseOf(c) == w2.PhaseOf(c) == w1.PhaseOf(c);
    OneMore(w0, Begin(0, studied, order), acts, studied);
    acts := [Begin(0, studied, order)] + acts;
  }

  lemma RunSnoc(w: World, acts: seq<Action>, act: Action, studied: Request)
    requires IsRun(w, acts, studied) && Enabled(After(w, acts, studied), act, studied)
    ensures IsRun(w, acts + [act], studied)
    ensures After(w, acts + [act], studied) == Next(After(w, acts, studied), act, studied)
  {
    var last := After(w, acts, studied);
    OneMore(last, act, [], studied);
    assert [act] + [] == [act];
    RunAppend(w, acts, [act], studied);
  }

  // What task 0 asks for first is not registered, or by now taken by task 2; resources of other types are as they were.
  ghost predicate AboutToFail(w: World, t: Table, studied: Request, ky: Key) {
    && w.PhaseOf(0).Allocating? && w.PhaseOf(0).req == studied && w.PhaseOf(0).todo != [] && w.PhaseOf(0).todo[0] == ky
    && !CanAllocate(w.table, ky) && w.PhaseOf(1).Idle? && w.PhaseOf(3).Idle?
    && forall k: Key :: k.rtype != ky.rtype ==> (k in w.table <==> k in t) && (k in t ==> w.table[k] == t[k])
  }

  lemma Overtaken(t: Table, studied: Request, y: string) returns (acts: seq<Action>)
    requires WellFormed(t) && forall k :: Asks(studied, k) ==> !Busy(t, k)
    requires y in studied && studied[y] != []
    ensures IsRun(Start(t), acts, studied)
    ensures AboutToFail(After(Start(t), acts, studied), t, studied, Key(y, studied[y][0]))
  {
    var ky := Key(y, studied[y][0]);
    assert Asks(studied, ky);
    acts := Checked(t, studied, y);
    hide IsRun, After, Start;
    if ky in t {
      var w := After(Start(t), acts, studied);
      var grab := GrabOne(w, 2, ky, studied);
      RunAppend(Start(t), acts, grab, studied);
      acts := acts + grab;
    }
  }

  // It fails and starts to roll back another type.
  lemma FailsAndRollsBack(t: Table, studied: Request, x: string, y: string) returns (acts: seq<Action>)
    requires WellFormed(t) && forall k :: Asks(studied, k) ==> !Busy(t, k)
    requires x in studied && y in studied && x != y && studied[y] != []
    ensures IsRun(Start(t), acts, studied)
    ensures var w := After(Start(t), acts, studied);
            && w.PhaseOf(0).RollingBack? && KeysOf(x, studied[x]) <= w.PhaseOf(0).todo
            && w.PhaseOf(1).Idle? && w.PhaseOf(3).Idle?
            && (forall k: Key :: k.rtype == x ==> (k in w.table <==> k in t) && (k in t ==> w.table[k] == t[k]))
  {
    var ky := Key(y, studied[y][0]);
    acts := Overtaken(t, studied, y);
    var w := After(Start(t), acts, studied);
    var order := OrderStarting(x, studied);
    RollbackStarts(studied, order, ky);
    hide IsRun, After, Start, IsOrder, RollbackFlat;
    RunSnoc(Start(t), acts, AllocateOne(0, order), studied);
    acts := acts + [AllocateOne(0, order)];
    assert After(Start(t), acts, studied) == w.GoTo(0, RollingBack(RollbackFlat(studied, order, ky)));
  }

  lemma RollbackStarts(req: Request, order: seq<string>, failed: Key)
    requires IsOrder(order, req) && order != [] && order[0] != failed.rtype
    ensures KeysOf(order[0], req[order[0]]) <= RollbackFlat(req, order, failed)
  {
  }

  // The rollback comes to a registered resource that task 1 has taken meanwhile, frees it, and task 3 takes it too.
  lemma TwoOwners(t: Table, studied: Request, x: string, y: string, i: nat) returns (acts: seq<Action>)
    requires WellFormed(t) && forall k :: Asks(studied, k) ==> !Busy(t, k)
    requires x in studied && y in studied && x != y && studied[y] != []
    requires i < |studied[x]| && Key(x, studied[x][i]) in t
    ensures IsRun(Start(t), acts, studied) && !Exclusive(After(Start(t), acts, studied))
  {
    var kx := Key(x, studied[x][i]);
    acts := FailsAndRollsBack(t, studied, x, y);
    var w: World := After(Start(t), acts, studied);
    hide IsRun, After, Start;
    var todo := w.PhaseOf(0).todo;
    forall j | 0 <= j <= i ensures todo[j] == Key(x, studied[x][j]) && !Busy(w.table, todo[j]) {
      assert todo[j] == KeysOf(x, studied[x])[j];
      assert Asks(studied, todo[j]);
    }
    var undo := UndoFree(w, 0, i, studied);
    RunAppend(Start(t), acts, undo, studied);
    acts := acts + undo;
    w := After(Start(t), acts, studied);
    assert w.PhaseOf(0).todo[0] == kx;
    var first := GrabOne(w, 1, kx, studied);
    RunAppend(Start(t), acts, first, studied);
    acts := acts + first;
    w := After(Start(t), acts, studied);
    RunSnoc(Start(t), acts, UndoOne(0), studied);
    acts := acts + [UndoOne(0)];
    var w1 := Next(w, UndoOne(0), studied);
    assert kx in w1.Holds(1);
    var second := GrabOne(w1, 3, kx, studied);
    RunAppend(Start(t), acts, second, studied);
    acts := acts + second;
    w := After(Start(t), acts, studied);
    assert kx in w.Holds(1) && kx in w.Holds(3);
  }

  /**
   Exclusion, for every table and every request: all runs keep every resource with at most one
   holder exactly when the request names no registered resource beside a resource of another
   type, or asks for something that is taken before any task runs, so that its check refuses it.
   */
  lemma ExclusionIff(t: Table, studied: Request)
    requires WellFormed(t)
    ensures (forall acts :: IsRun(Start(t), acts, studied) ==> Exclusive(After(Start(t), acts, studied))) <==> Harmless(t, studied)
  {
    if Harmless(t, studied) {
      forall acts: seq<Action> | IsRun(Start(t), acts, studied) ensures Exclusive(After(Start(t), acts, studied)) {
        var orphans := InvariantFromStart(t, studied, acts);
      }
    } else {
      var x: string, y: string, i: nat :| x in studied && y in studied && x != y && studied[y] != [] && 0 <= i < |studied[x]| && Key(x, studied[x][i]) in t;
      var acts := TwoOwners(t, studied, x, y, i);
      assert IsRun(Start(t), acts, studied) && !Exclusive(After(Start(t), acts, studied));
    }
  }
}
