/**
 All or nothing: when a request for several resources leaves the table as it found it,
 over every order in which the three map ranges may run.
 */
module ResourceAllocation {
  import opened ResourceTable

  ghost predicate Asks(req: Request, k: Key) {
    k.rtype in req && k.id in req[k.rtype]
  }

  // A failed call leaves the table as it was.
  ghost predicate AllOrNothing(t: Table, req: Request, check: seq<string>, alloc: seq<string>, undo: seq<string>)
    requires IsOrder(check, req) && IsOrder(alloc, req) && IsOrder(undo, req)
  {
    var (after, outcome) := AllocateForTask(t, req, check, alloc, undo);
    outcome != Granted ==> after == t
  }

  lemma CheckSeesAll(t: Table, req: Request, order: seq<string>)
    requires IsOrder(order, req)
    ensures AnyBusy(t, Flat(req, order)) <==> exists k :: Asks(req, k) && Busy(t, k)
  {
    if k :| Asks(req, k) && Busy(t, k) {
      FlatHas(req, order, k);
      var i :| 0 <= i < |Flat(req, order)| && Flat(req, order)[i] == k;
    }
    if AnyBusy(t, Flat(req, order)) {
      var i :| 0 <= i < |Flat(req, order)| && Busy(t, Flat(req, order)[i]);
      FlatHas(req, order, Flat(req, order)[i]);
      assert Asks(req, Flat(req, order)[i]);
    }
  }

  // Within one walk, the keys of a type are those of its list, up to the place reached.
  lemma VisitedOfType(req: Request, order: seq<string>, p: nat, j: nat, k: Key)
    requires IsOrder(order, req) && p < |order| && j <= |req[order[p]]| && k.rtype == order[p]
    ensures k in Flat(req, order[..p]) + KeysOf(order[p], req[order[p]][..j]) <==> k.id in req[order[p]][..j]
  {
    FlatHas(req, order[..p], k);
    KeysOfHas(order[p], req[order[p]][..j], k);
  }

  /** A refused request changes nothing; one that fails while allocating is undone exactly when the resource it failed at is unknown. */
  lemma FailureIsUndone(t: Table, req: Request, check: seq<string>, alloc: seq<string>, undo: seq<string>)
    requires WellFormed(t) && IsOrder(check, req) && IsOrder(alloc, req) && IsOrder(undo, req)
    ensures var (after, outcome) := AllocateForTask(t, req, check, alloc, undo);
            && (outcome == Refused ==> after == t)
            && (outcome.Failed? ==> (after == t <==> outcome.at !in t) && (outcome.at in t ==> Busy(after, outcome.at)))
  {
    var (after, outcome) := AllocateForTask(t, req, check, alloc, undo);
    if outcome.Failed? {
      var ks := Flat(req, alloc);
      var (taken, n) := AllocateAll(t, ks);
      var failed := ks[n];
      AllocateAllTakes(t, ks);
      ReleaseAllFrees(taken, RollbackFlat(req, undo, failed));
      var run, back := Elements(ks[..n]), Elements(RollbackFlat(req, undo, failed));
      RollbackHas(req, undo, failed, failed);
      BeforeLacks(req[failed.rtype], failed.id) by { FlatHas(req, alloc, failed); }
      assert failed !in back;
      if failed in t {
        CheckSeesAll(t, req, check);
        FlatHas(req, alloc, failed);
        assert Asks(req, failed) && failed in run;
      } else {
        CheckSeesAll(t, req, check);
        RunIsUndone(t, req, alloc, undo, n);
        assert after == t;
      }
    }
  }

  // Up to an unknown resource, the rollback loop visits everything the allocate loop took.
  lemma RollbackCovers(req: Request, alloc: seq<string>, undo: seq<string>, n: nat, k: Key)
    requires IsOrder(alloc, req) && IsOrder(undo, req)
    requires n < |Flat(req, alloc)| && Flat(req, alloc)[n] !in Flat(req, alloc)[..n]
    requires k in Flat(req, alloc)[..n]
    ensures k in RollbackFlat(req, undo, Flat(req, alloc)[n])
  {
    var ks := Flat(req, alloc);
    var failed := ks[n];
    var p, j := FlatAt(req, alloc, n);
    VisitedOfType(req, alloc, p, j, failed);
    BeforeIs(req[failed.rtype], failed.id, j);
    FlatHas(req, alloc, k);
    RollbackHas(req, undo, failed, k);
    if k.rtype == failed.rtype { VisitedOfType(req, alloc, p, j, k); }
  }

  lemma RunIsUndone(t: Table, req: Request, alloc: seq<string>, undo: seq<string>, n: nat)
    requires WellFormed(t) && IsOrder(alloc, req) && IsOrder(undo, req)
    requires n < |Flat(req, alloc)| && Flat(req, alloc)[n] !in t
    requires forall i :: 0 <= i < n ==> CanAllocate(t, Flat(req, alloc)[i])
    requires forall k :: Asks(req, k) ==> !Busy(t, k)
    ensures var ks := Flat(req, alloc);
            Free(Take(t, Elements(ks[..n])), Elements(RollbackFlat(req, undo, ks[n]))) == t
  {
    var ks := Flat(req, alloc);
    var run, back := ks[..n], RollbackFlat(req, undo, ks[n]);
    forall i | 0 <= i < n ensures ks[i] != ks[n] {
      assert CanAllocate(t, ks[i]);
    }
    forall k | k in run ensures k in back {
      RollbackCovers(req, alloc, undo, n, k);
    }
    forall k | k in back ensures !Busy(t, k) {
      RollbackHas(req, undo, ks[n], k);
      BeforeSubset(req[k.rtype], ks[n].id, k.id);
      assert Asks(req, k);
    }
    TakeThenFree(t, Elements(run), Elements(back));
  }

  lemma {:induction false} BeforeSubset(ids: seq<string>, id: string, x: string)
    ensures x in Before(ids, id) ==> x in ids
    decreases ids
  {
    if ids != [] && ids[0] != id {
      BeforeSubset(ids[1..], id, x);
    }
  }

  lemma TakeThenFree(t: Table, run: set<Key>, back: set<Key>)
    requires WellFormed(t) && run <= back
    requires forall k :: k in back ==> !Busy(t, k)
    ensures Free(Take(t, run), back) == t
  {
    var now := Free(Take(t, run), back);
    forall k | k in t ensures now[k] == t[k] {
      if k in back { assert !Busy(t, k); }
    }
  }

  // ---------------------------------------------------------------- success

  /** A request is granted exactly when every resource it names is known and free and no list names one twice; then exactly those are taken. Neither depends on any order. */
  lemma GrantedIff(t: Table, req: Request, check: seq<string>, alloc: seq<string>, undo: seq<string>)
    requires IsOrder(check, req) && IsOrder(alloc, req) && IsOrder(undo, req)
    ensures var (after, outcome) := AllocateForTask(t, req, check, alloc, undo);
            && (outcome == Granted <==> DuplicateFree(req) && forall k :: Asks(req, k) ==> CanAllocate(t, k))
            && (outcome == Granted ==> after == map k | k in t :: if Asks(req, k) then TAKEN else t[k])
  {
    var (after, outcome) := AllocateForTask(t, req, check, alloc, undo);
    CheckSeesAll(t, req, check);
    if outcome == Granted {
      GrantedTakes(t, req, alloc);
    }
    if DuplicateFree(req) && forall k :: Asks(req, k) ==> CanAllocate(t, k) {
      LoopCompletes(t, req, alloc);
    }
  }

  lemma GrantedTakes(t: Table, req: Request, alloc: seq<string>)
    requires IsOrder(alloc, req) && AllocateAll(t, Flat(req, alloc)).1 == |Flat(req, alloc)|
    ensures DuplicateFree(req) && forall k :: Asks(req, k) ==> CanAllocate(t, k)
    ensures AllocateAll(t, Flat(req, alloc)).0 == map k | k in t :: if Asks(req, k) then TAKEN else t[k]
  {
    var ks := Flat(req, alloc);
    AllocateAllTakes(t, ks);
    assert ks[..|ks|] == ks;
    DistinctLists(req, alloc);
    forall k ensures k in ks <==> Asks(req, k) { FlatHas(req, alloc, k); }
  }

  lemma LoopCompletes(t: Table, req: Request, alloc: seq<string>)
    requires IsOrder(alloc, req) && DuplicateFree(req)
    requires forall k :: Asks(req, k) ==> CanAllocate(t, k)
    ensures AllocateAll(t, Flat(req, alloc)).1 == |Flat(req, alloc)|
  {
    var ks := Flat(req, alloc);
    var n := AllocateAll(t, ks).1;
    AllocateAllTakes(t, ks);
    if n < |ks| {
      FlatHas(req, alloc, ks[n]);
      assert Asks(req, ks[n]);
      var p, j := FlatAt(req, alloc, n);
      VisitedOfType(req, alloc, p, j, ks[n]);
    }
  }

  lemma {:induction false} DistinctLists(req: Request, order: seq<string>)
    requires forall x :: x in order ==> x in req
    requires Distinct(Flat(req, order))
    ensures forall x :: x in order ==> Distinct(req[x])
    decreases order
  {
    if order != [] {
      var here, rest := KeysOf(order[0], req[order[0]]), Flat(req, order[1..]);
      assert Flat(req, order) == here + rest;
      forall i, j | 0 <= i < j < |rest| ensures rest[i] != rest[j] {
        assert rest[i] == (here + rest)[|here| + i] && rest[j] == (here + rest)[|here| + j];
      }
      DistinctLists(req, order[1..]);
      forall i, j | 0 <= i < j < |req[order[0]]| ensures req[order[0]][i] != req[order[0]][j] {
        assert here[i] == (here + rest)[i] && here[j] == (here + rest)[j];
      }
    }
  }

  /** Releasing what was granted, in whatever order, brings back the table from before the request. */
  lemma ReleaseUndoesGrant(t: Table, req: Request, check: seq<string>, alloc: seq<string>, undo: seq<string>, release: seq<string>)
    requires WellFormed(t)
    requires IsOrder(check, req) && IsOrder(alloc, req) && IsOrder(undo, req) && IsOrder(release, req)
    requires AllocateForTask(t, req, check, alloc, undo).1 == Granted
    ensures ReleaseAll(AllocateForTask(t, req, check, alloc, undo).0, Flat(req, release)) == t
  {
    hide AllocateForTask, ReleaseAll, Flat, Free, CanAllocate;
    var after := AllocateForTask(t, req, check, alloc, undo).0;
    GrantedIff(t, req, check, alloc, undo);
    ReleaseAllFrees(after, Flat(req, release));
    var asked := Elements(Flat(req, release));
    forall k ensures k in asked <==> Asks(req, k) { FlatHas(req, release, k); }
    FreeUndoesTake(t, after, req, asked);
  }

  lemma FreeUndoesTake(t: Table, after: Table, req: Request, asked: set<Key>)
    requires WellFormed(t) && forall k :: Asks(req, k) ==> CanAllocate(t, k)
    requires after == map k | k in t :: if Asks(req, k) then TAKEN else t[k]
    requires forall k :: k in asked <==> Asks(req, k)
    ensures Free(after, asked) == t
  {
    hide Asks;
    forall k | k in t ensures Free(after, asked)[k] == t[k] {
      if Asks(req, k) { assert CanAllocate(t, k); }
    }
  }

  // ---------------------------------------------------------------- exactly when every failure is undone

  // A list that repeats a known resource before it names an unknown one.
  ghost predicate Repeats(t: Table, rtype: string, ids: seq<string>) {
    exists j :: 0 <= j < |ids| && ids[j] in ids[..j] && forall i :: 0 <= i < j ==> Key(rtype, ids[i]) in t
  }

  /** The failing resource is known only when its list repeats one. */
  lemma KnownFailureRepeats(t: Table, req: Request, check: seq<string>, alloc: seq<string>, undo: seq<string>)
    requires WellFormed(t) && IsOrder(check, req) && IsOrder(alloc, req) && IsOrder(undo, req)
    requires var outcome := AllocateForTask(t, req, check, alloc, undo).1; outcome.Failed? && outcome.at in t
    ensures exists x :: x in req && Repeats(t, x, req[x])
  {
    var ks := Flat(req, alloc);
    var n := AllocateAll(t, ks).1;
    AllocateAllTakes(t, ks);
    CheckSeesAll(t, req, check);
    FlatHas(req, alloc, ks[n]);
    assert Asks(req, ks[n]) && ks[n] in ks[..n];
    var p, j := FlatAt(req, alloc, n);
    VisitedOfType(req, alloc, p, j, ks[n]);
    var x := alloc[p];
    var ids := req[x];
    assert ids[j] in ids[..j];
    forall i | 0 <= i < j ensures Key(x, ids[i]) in t {
      VisitedOfType(req, alloc, p, j, Key(x, ids[i]));
      assert ids[i] in ids[..j] && Key(x, ids[i]) in ks[..n];
      var m :| 0 <= m < n && ks[m] == Key(x, ids[i]);
      assert CanAllocate(t, ks[m]);
    }
    assert Repeats(t, x, ids);
  }

  /** When the repeating list comes first, the call fails at a known resource. */
  lemma RepeatsFailsKnown(t: Table, req: Request, order: seq<string>)
    requires IsOrder(order, req) && order != [] && Repeats(t, order[0], req[order[0]])
    requires forall k :: Asks(req, k) ==> !Busy(t, k)
    ensures var outcome := AllocateForTask(t, req, order, order, order).1; outcome.Failed? && outcome.at in t
  {
    hide AllocateAll, AnyBusy, KeysOf, RollbackFlat, ReleaseAll, Repeats, CanAllocate;
    CheckSeesAll(t, req, order);
    FailsInside(t, order[0], req[order[0]], Flat(req, order[1..]));
  }

  lemma FailsInside(t: Table, x: string, ids: seq<string>, later: seq<Key>)
    requires Repeats(t, x, ids)
    ensures var ks := KeysOf(x, ids) + later;
            var n := AllocateAll(t, ks).1;
            n < |ks| && ks[n] in t
  {
    var ks := KeysOf(x, ids) + later;
    var j :| 0 <= j < |ids| && ids[j] in ids[..j] && forall i :: 0 <= i < j ==> Key(x, ids[i]) in t;
    var i :| 0 <= i < j && ids[i] == ids[j];
    hide AllocateAll, CanAllocate, Repeats;
    forall m | 0 <= m <= j ensures ks[m] == Key(x, ids[m]) {}
    StopsAtRepeat(t, ks, i, j);
  }

  lemma StopsAtRepeat(t: Table, ks: seq<Key>, i: nat, j: nat)
    requires i < j < |ks| && ks[i] == ks[j]
    ensures AllocateAll(t, ks).1 <= j
  {
    AllocateAllTakes(t, ks);
  }

  lemma OrderStarting(x: string, req: Request) returns (order: seq<string>)
    requires x in req
    ensures IsOrder(order, req) && order != [] && order[0] == x
  {
    order := [x];
    var rest := req.Keys - {x};
    while rest != {}
      invariant Distinct(order) && order != [] && order[0] == x
      invariant rest <= req.Keys
      invariant forall y :: y in order <==> y in req && y !in rest
      decreases rest
    {
      var y :| y in rest;
      order, rest := order + [y], rest - {y};
    }
  }

  /** All or nothing holds over every order of the three loops exactly when the check refuses, or no list repeats a known resource. */
  lemma AllOrNothingIff(t: Table, req: Request)
    requires WellFormed(t)
    ensures (forall check, alloc, undo :: IsOrder(check, req) && IsOrder(alloc, req) && IsOrder(undo, req)
                                          ==> AllOrNothing(t, req, check, alloc, undo))
       <==> ((exists k :: Asks(req, k) && Busy(t, k)) || !(exists x :: x in req && Repeats(t, x, req[x])))
  {
    var refused := exists k :: Asks(req, k) && Busy(t, k);
    var repeats := exists x :: x in req && Repeats(t, x, req[x]);
    if refused || !repeats {
      forall check, alloc, undo | IsOrder(check, req) && IsOrder(alloc, req) && IsOrder(undo, req)
        ensures AllOrNothing(t, req, check, alloc, undo)
      {
        CheckSeesAll(t, req, check);
        FailureIsUndone(t, req, check, alloc, undo);
        var outcome := AllocateForTask(t, req, check, alloc, undo).1;
        if outcome.Failed? && outcome.at in t {
          KnownFailureRepeats(t, req, check, alloc, undo);
        }
      }
    } else {
      var x :| x in req && Repeats(t, x, req[x]);
      var order := OrderStarting(x, req);
      RepeatsFailsKnown(t, req, order);
      FailureIsUndone(t, req, order, order, order);
      assert !AllOrNothing(t, req, order, order, order);
    }
  }

  /** In particular, duplicate-free requests never leave anything behind. */
  lemma DuplicateFreeIsAllOrNothing(t: Table, req: Request, check: seq<string>, alloc: seq<string>, undo: seq<string>)
    requires WellFormed(t) && DuplicateFree(req)
    requires IsOrder(check, req) && IsOrder(alloc, req) && IsOrder(undo, req)
    ensures AllOrNothing(t, req, check, alloc, undo)
  {
    forall x | x in req ensures !Repeats(t, x, req[x]) {
      assert Distinct(req[x]);
    }
    AllOrNothingIff(t, req);
  }

  /** Asking twice for one free resource fails and leaves it taken. */
  lemma RepeatLeaks()
    ensures var r := Key("axis", "x");
            AllocateForTask(map[r := FREE], map["axis" := ["x", "x"]], ["axis"], ["axis"], ["axis"])
            == (map[r := TAKEN], Failed(r))
  {
    var r := Key("axis", "x");
    var t := map[r := FREE];
    var req: Request := map["axis" := ["x", "x"]];
    var ks := [r, r];
    assert Flat(req, ["axis"]) == ks by {
      assert ["axis"][1..] == [];
      assert KeysOf("axis", req["axis"]) == ks;
    }
    assert Allocated(t, r) == map[r := TAKEN];
    assert AllocateAll(map[r := TAKEN], ks[1..]) == (map[r := TAKEN], 0);
    assert AllocateAll(t, ks) == (map[r := TAKEN], 1);
    assert Before(["x", "x"], "x") == [];
    assert RollbackFlat(req, ["axis"], r) == [] by { assert ["axis"][1..] == []; }
  }
}
