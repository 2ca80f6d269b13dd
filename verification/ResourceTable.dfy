/**
 What the resource manager's table means, apart from how it is stored: which resources are
 registered, which are taken, and what allocating a whole request does for every order in
 which its maps may be walked.
 */
module ResourceTable {
  datatype Key = Key(rtype: string, id: string)

  datatype Cell = Cell(taken: bool, allocatedTo: string)

  const FREE := Cell(false, "")
  const TAKEN := Cell(true, "system")

  type Table = map<Key, Cell>

  // The holder's name is set exactly while the resource is allocated.
  ghost predicate WellFormed(t: Table) {
    forall k :: k in t ==> t[k] == FREE || t[k] == TAKEN
  }

  predicate CanAllocate(t: Table, k: Key) { k in t && !t[k].taken }

  predicate Busy(t: Table, k: Key) { k in t && t[k].taken }

  // One Allocate and one Release; both leave the table alone when they fail.
  function Allocated(t: Table, k: Key): Table {
    if CanAllocate(t, k) then t[k := TAKEN] else t
  }

  function Released(t: Table, k: Key): Table {
    if Busy(t, k) then t[k := FREE] else t
  }

  // ---------------------------------------------------------------- requests

  // What a task asks for: lists of resource IDs by resource type.
  type Request = map<string, seq<string>>

  ghost predicate Distinct<T>(s: seq<T>) {
    forall i, j :: 0 <= i < j < |s| ==> s[i] != s[j]
  }

  // One of the orders in which a range over the request may visit its types.
  ghost predicate IsOrder(order: seq<string>, req: Request) {
    Distinct(order) && (forall x :: x in order <==> x in req)
  }

  ghost predicate DuplicateFree(req: Request) {
    forall x :: x in req ==> Distinct(req[x])
  }

  function KeysOf(rtype: string, ids: seq<string>): (ks: seq<Key>)
    ensures |ks| == |ids|
    ensures forall i :: 0 <= i < |ids| ==> ks[i] == Key(rtype, ids[i])
  {
    seq(|ids|, i requires 0 <= i < |ids| => Key(rtype, ids[i]))
  }

  // The resources in the order a nested range visits them.
  function Flat(req: Request, order: seq<string>): seq<Key>
    requires forall x :: x in order ==> x in req
  {
    if order == [] then [] else KeysOf(order[0], req[order[0]]) + Flat(req, order[1..])
  }

  // The part of a list that comes before the first occurrence of an ID.
  function Before(ids: seq<string>, id: string): seq<string> {
    if ids == [] || ids[0] == id then [] else [ids[0]] + Before(ids[1..], id)
  }

  // The part of one list the rollback loop releases: its break leaves only the list of the failed type.
  function Undone(rtype: string, ids: seq<string>, failed: Key): seq<string> {
    if rtype == failed.rtype then Before(ids, failed.id) else ids
  }

  function RollbackFlat(req: Request, order: seq<string>, failed: Key): seq<Key>
    requires forall x :: x in order ==> x in req
  {
    if order == [] then []
    else KeysOf(order[0], Undone(order[0], req[order[0]], failed)) + RollbackFlat(req, order[1..], failed)
  }

  // ---------------------------------------------------------------- the three phases

  predicate AnyBusy(t: Table, ks: seq<Key>) {
    exists i :: 0 <= i < |ks| && Busy(t, ks[i])
  }

  // Allocates one key after the other up to the first failure; n counts the successes.
  function AllocateAll(t: Table, ks: seq<Key>): (r: (Table, nat))
    ensures r.1 <= |ks|
    decreases ks
  {
    if ks == [] || !CanAllocate(t, ks[0]) then (t, 0)
    else
      var (after, n) := AllocateAll(Allocated(t, ks[0]), ks[1..]);
      (after, n + 1)
  }

  function ReleaseAll(t: Table, ks: seq<Key>): Table
    decreases ks
  {
    if ks == [] then t else ReleaseAll(Released(t, ks[0]), ks[1..])
  }

  datatype Outcome = Granted | Refused | Failed(at: Key)

  // AllocateForTask, given the orders its check, allocate and rollback loops happen to use.
  function AllocateForTask(t: Table, req: Request, check: seq<string>, alloc: seq<string>, undo: seq<string>): (Table, Outcome)
    requires forall x :: x in check || x in alloc || x in undo ==> x in req
  {
    if AnyBusy(t, Flat(req, check)) then (t, Refused)
    else
      var ks := Flat(req, alloc);
      var (after, n) := AllocateAll(t, ks);
      if n == |ks| then (after, Granted)
      else (ReleaseAll(after, RollbackFlat(req, undo, ks[n])), Failed(ks[n]))
  }

  // ---------------------------------------------------------------- the phases as set operations

  ghost function Elements(ks: seq<Key>): set<Key> { set k | k in ks }

  // The table with exactly these registered keys taken, or freed.
  ghost function Take(t: Table, ks: set<Key>): Table {
    map k | k in t :: if k in ks then TAKEN else t[k]
  }

  ghost function Free(t: Table, ks: set<Key>): Table {
    map k | k in t :: if k in ks then FREE else t[k]
  }

  lemma {:induction false} ReleaseAllFrees(t: Table, ks: seq<Key>)
    requires WellFormed(t)
    ensures ReleaseAll(t, ks) == Free(t, Elements(ks))
    decreases ks
  {
    if ks == [] {
      assert Free(t, Elements(ks)) == t;
    } else {
      ReleaseAllFrees(Released(t, ks[0]), ks[1..]);
      assert ks == [ks[0]] + ks[1..];
      assert Free(Released(t, ks[0]), Elements(ks[1..])) == Free(t, Elements(ks));
    }
  }

  /** The allocate loop takes a duplicate-free run of free resources, and stops at the first that is unknown or already in that run. */
  lemma {:induction false} AllocateAllTakes(t: Table, ks: seq<Key>)
    ensures var (after, n) := AllocateAll(t, ks);
            && after == Take(t, Elements(ks[..n]))
            && Distinct(ks[..n])
            && (forall i :: 0 <= i < n ==> CanAllocate(t, ks[i]))
            && (n < |ks| ==> !CanAllocate(t, ks[n]) || ks[n] in ks[..n])
    decreases ks
  {
    if ks == [] || !CanAllocate(t, ks[0]) {
      assert Take(t, Elements(ks[..0])) == t;
    } else {
      var t1 := Allocated(t, ks[0]);
      AllocateAllTakes(t1, ks[1..]);
      var (after, m) := AllocateAll(t1, ks[1..]);
      var run := ks[..m + 1];
      assert run == [ks[0]] + ks[1..][..m];
      assert Take(t1, Elements(ks[1..][..m])) == Take(t, Elements(run));
      forall i, j | 0 <= i < j < |run| ensures run[i] != run[j] {
        assert CanAllocate(t1, ks[1..][j - 1]);
        if i > 0 { assert ks[1..][..m][i - 1] != ks[1..][..m][j - 1]; }
      }
      forall i | 0 <= i < m + 1 ensures CanAllocate(t, ks[i]) {
        if i > 0 { assert CanAllocate(t1, ks[1..][i - 1]); }
      }
    }
  }

  // ---------------------------------------------------------------- what a walk visits

  lemma {:induction false} FlatHas(req: Request, order: seq<string>, k: Key)
    requires forall x :: x in order ==> x in req
    ensures k in Flat(req, order) <==> k.rtype in order && k.id in req[k.rtype]
    decreases order
  {
    if order != [] {
      FlatHas(req, order[1..], k);
      KeysOfHas(order[0], req[order[0]], k);
    }
  }

  lemma KeysOfHas(rtype: string, ids: seq<string>, k: Key)
    ensures k in KeysOf(rtype, ids) <==> k.rtype == rtype && k.id in ids
  {
    if k.rtype == rtype && k.id in ids {
      var i :| 0 <= i < |ids| && ids[i] == k.id;
      assert KeysOf(rtype, ids)[i] == k;
    }
  }

  lemma {:induction false} RollbackHas(req: Request, order: seq<string>, failed: Key, k: Key)
    requires forall x :: x in order ==> x in req
    ensures k in RollbackFlat(req, order, failed) <==>
            k.rtype in order && k.id in Undone(k.rtype, req[k.rtype], failed)
    decreases order
  {
    if order != [] {
      RollbackHas(req, order[1..], failed, k);
      KeysOfHas(order[0], Undone(order[0], req[order[0]], failed), k);
    }
  }

  lemma {:induction false} BeforeIs(ids: seq<string>, id: string, j: nat)
    requires j < |ids| && ids[j] == id && id !in ids[..j]
    ensures Before(ids, id) == ids[..j]
    decreases ids
  {
    if j > 0 {
      assert ids[0] == ids[..j][0];
      assert ids[1..][..j - 1] == ids[..j][1..];
      BeforeIs(ids[1..], id, j - 1);
    }
  }

  lemma {:induction false} BeforeLacks(ids: seq<string>, id: string)
    ensures id !in Before(ids, id)
    decreases ids
  {
    if ids != [] && ids[0] != id {
      BeforeLacks(ids[1..], id);
    }
  }

  // Where the n-th visited key sits: in which list, and at which place of it.
  lemma {:induction false} FlatAt(req: Request, order: seq<string>, n: nat) returns (p: nat, j: nat)
    requires forall x :: x in order ==> x in req
    requires n < |Flat(req, order)|
    ensures p < |order| && j < |req[order[p]]|
    ensures Flat(req, order)[n] == Key(order[p], req[order[p]][j])
    ensures Flat(req, order)[..n] == Flat(req, order[..p]) + KeysOf(order[p], req[order[p]][..j])
    decreases order
  {
    var ids := req[order[0]];
    var rest := Flat(req, order[1..]);
    assert Flat(req, order) == KeysOf(order[0], ids) + rest;
    if n < |ids| {
      p, j := 0, n;
      assert Flat(req, order[..0]) == [];
      hide Flat, KeysOf;
      StartOfList(order[0], ids, rest, n);
    } else {
      p, j := FlatAt(req, order[1..], n - |ids|);
      FirstList(req, order, p);
      hide Flat, KeysOf;
      assert (KeysOf(order[0], ids) + rest)[..n] == KeysOf(order[0], ids) + rest[..n - |ids|];
      p := p + 1;
    }
  }

  lemma StartOfList(x: string, ids: seq<string>, rest: seq<Key>, n: nat)
    requires n < |ids|
    ensures (KeysOf(x, ids) + rest)[..n] == [] + KeysOf(x, ids[..n])
  {
  }

  lemma FirstList(req: Request, order: seq<string>, p: nat)
    requires p + 1 < |order| && forall x :: x in order ==> x in req
    ensures Flat(req, order[..p + 1]) == KeysOf(order[0], req[order[0]]) + Flat(req, order[1..][..p])
  {
    assert order[..p + 1][0] == order[0] && order[..p + 1][1..] == order[1..][..p];
  }

  // ---------------------------------------------------------------- walking one list at a time

  lemma {:induction false} FlatAppend(req: Request, a: seq<string>, b: seq<string>)
    requires forall x :: x in a || x in b ==> x in req
    ensures Flat(req, a + b) == Flat(req, a) + Flat(req, b)
    decreases a
  {
    if a == [] {
      assert a + b == b;
    } else {
      assert (a + b)[1..] == a[1..] + b;
      FlatAppend(req, a[1..], b);
    }
  }

  lemma {:induction false} RollbackFlatAppend(req: Request, a: seq<string>, b: seq<string>, failed: Key)
    requires forall x :: x in a || x in b ==> x in req
    ensures RollbackFlat(req, a + b, failed) == RollbackFlat(req, a, failed) + RollbackFlat(req, b, failed)
    decreases a
  {
    hide KeysOf, Undone;
    if a == [] {
      assert a + b == b;
    } else {
      assert (a + b)[0] == a[0] && (a + b)[1..] == a[1..] + b;
      RollbackFlatAppend(req, a[1..], b, failed);
    }
  }

  lemma {:induction false} AllocateAllAppend(t: Table, a: seq<Key>, b: seq<Key>)
    requires AllocateAll(t, a).1 == |a|
    ensures var (middle, _) := AllocateAll(t, a);
            AllocateAll(t, a + b) == (AllocateAll(middle, b).0, |a| + AllocateAll(middle, b).1)
    decreases a
  {
    if a == [] {
      assert a + b == b;
    } else {
      assert (a + b)[1..] == a[1..] + b;
      AllocateAllAppend(Allocated(t, a[0]), a[1..], b);
    }
  }

  lemma {:induction false} ReleaseAllAppend(t: Table, a: seq<Key>, b: seq<Key>)
    ensures ReleaseAll(t, a + b) == ReleaseAll(ReleaseAll(t, a), b)
    decreases a
  {
    if a == [] {
      assert a + b == b;
    } else {
      assert (a + b)[1..] == a[1..] + b;
      ReleaseAllAppend(Released(t, a[0]), a[1..], b);
    }
  }
}
