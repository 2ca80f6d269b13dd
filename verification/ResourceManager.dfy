/**
 The resource manager: records updated in place behind a nested map. Every operation is
 tied to its meaning on the table of module ResourceTable, and each range over a map picks
 its order freely.
 */
module ResourceManager {
  import opened Wrappers
  import opened ResourceTable
  import opened ResourceAllocation

  datatype Error =
    | TypeNotFound(rtype: string)
    | NotFound(key: Key)
    | AlreadyAllocated(key: Key)
    | NotAllocated(key: Key)
    | AllocationFailed(key: Key, cause: Error)
    | ReleaseErrors(count: nat)

  // A hardware resource; its type and ID never change.
  class Resource {
    const rtype: string
    const id: string
    var taken: bool
    var allocatedTo: string

    constructor (rtype: string, id: string)
      ensures this.rtype == rtype && this.id == id && !taken && allocatedTo == ""
    {
      this.rtype, this.id, taken, allocatedTo := rtype, id, false, "";
    }
  }

  type Store = map<string, map<string, Resource>>

  ghost predicate Has(m: Store, k: Key) {
    k.rtype in m && k.id in m[k.rtype]
  }

  // Why a resource that is not there for the taking cannot be allocated.
  ghost predicate IsCause(m: Store, k: Key, cause: Error) {
    if k.rtype !in m then cause == TypeNotFound(k.rtype)
    else if k.id !in m[k.rtype] then cause == NotFound(k)
    else cause == AlreadyAllocated(k)
  }

  // Where an entry put into the nested map can be found, and what it leaves alone.
  lemma PutHas(m: Store, x: string, i: string, r: Resource, k: Key)
    requires x in m
    ensures var m' := m[x := m[x][i := r]];
            && (Has(m', k) <==> Has(m, k) || k == Key(x, i))
            && (Has(m', k) ==> m'[k.rtype][k.id] == if k == Key(x, i) then r else m[k.rtype][k.id])
  {
    assert k == Key(x, i) <==> k.rtype == x && k.id == i;
  }

  class Manager {
    var resources: Store
    ghost var keys: set<Key>  // where a record is stored

    ghost predicate Indexed()
      reads this
    {
      forall k :: k in keys <==> Has(resources, k)
    }

    ghost function Objects(): set<Resource>
      requires Indexed()
      reads this
    {
      set k | k in keys :: resources[k.rtype][k.id]
    }

    ghost predicate Valid()
      reads this, if Indexed() then Objects() else {}
      ensures Valid() ==> Indexed()
    {
      && Indexed()
      && (forall k :: k in keys ==> resources[k.rtype][k.id].rtype == k.rtype && resources[k.rtype][k.id].id == k.id)
      && WellFormed(Table())
    }

    // What the records say, as a value.
    ghost function Table(): Table
      requires Indexed()
      reads this, Objects()
    {
      map k | k in keys :: Cell(resources[k.rtype][k.id].taken, resources[k.rtype][k.id].allocatedTo)
    }

    constructor ()
      ensures Valid() && Table() == map[]
    {
      resources := map[];
      keys := {};
    }

    // Makes room for the resources of a type.
    method AddType(rtype: string)
      requires Valid()
      modifies `resources
      ensures Valid() && rtype in resources
      ensures Table() == old(Table())
    {
      if rtype !in resources {
        resources := resources[rtype := map[]];
        assert forall k :: Has(resources, k) <==> old(Has(resources, k));
        assert Indexed();
        assert forall k :: k in keys ==> resources[k.rtype][k.id] == old(resources)[k.rtype][k.id];
        assert Table() == old(Table());
      }
    }

    // Stores a new record under its type and ID.
    method Insert(resource: Resource)
      requires Valid() && resource.rtype in resources
      requires resource !in Objects() && !resource.taken && resource.allocatedTo == ""
      modifies this
      ensures Valid()
      ensures Table() == old(Table())[Key(resource.rtype, resource.id) := FREE]
    {
      ghost var added := Key(resource.rtype, resource.id);
      forall k { PutHas(resources, resource.rtype, resource.id, resource, k); }
      resources := resources[resource.rtype := resources[resource.rtype][resource.id := resource]];
      keys := keys + {added};
      assert Indexed();
      assert resources[added.rtype][added.id] == resource;
      assert forall k :: k in keys && k != added ==> resources[k.rtype][k.id] == old(resources)[k.rtype][k.id];
      assert Table() == old(Table())[added := FREE];
    }

    /** Registers a resource, or resets one that was registered before. */
    method RegisterResource(rtype: string, id: string)
      requires Valid()
      modifies this
      ensures Valid()
      ensures Table() == old(Table())[Key(rtype, id) := Cell(false, "")]
    {
      AddType(rtype);
      var resource := new Resource(rtype, id);
      hide Table;
      Insert(resource);
    }

    method Allocate(rtype: string, id: string) returns (err: Option<Error>)
      requires Valid()
      modifies Objects()
      ensures Valid()
      ensures err.None? <==> CanAllocate(old(Table()), Key(rtype, id))
      ensures err.None? ==> resources[rtype][id].taken && resources[rtype][id].allocatedTo == "system"
      ensures err.Some? ==> IsCause(resources, Key(rtype, id), err.value)
      ensures Table() == Allocated(old(Table()), Key(rtype, id))
    {
      if rtype !in resources {
        return Some(TypeNotFound(rtype));
      }
      if id !in resources[rtype] {
        return Some(NotFound(Key(rtype, id)));
      }
      var resource := resources[rtype][id];
      if resource.taken {
        return Some(AlreadyAllocated(Key(rtype, id)));
      }
      resource.taken := true;
      resource.allocatedTo := "system";
      return None;
    }

    method Release(rtype: string, id: string) returns (err: Option<Error>)
      requires Valid()
      modifies Objects()
      ensures Valid()
      ensures err.None? <==> Busy(old(Table()), Key(rtype, id))
      ensures err.None? ==> !resources[rtype][id].taken && resources[rtype][id].allocatedTo == ""
      ensures err.Some? ==>
                err.value == if rtype !in resources then TypeNotFound(rtype)
                             else if id !in resources[rtype] then NotFound(Key(rtype, id)) else NotAllocated(Key(rtype, id))
      ensures Table() == Released(old(Table()), Key(rtype, id))
    {
      if rtype !in resources {
        return Some(TypeNotFound(rtype));
      }
      if id !in resources[rtype] {
        return Some(NotFound(Key(rtype, id)));
      }
      var resource := resources[rtype][id];
      if !resource.taken {
        return Some(NotAllocated(Key(rtype, id)));
      }
      resource.taken := false;
      resource.allocatedTo := "";
      return None;
    }

    /** Unknown resources count as not allocated. */
    predicate IsResourceAllocated(rtype: string, id: string)
      requires Valid()
      reads this, Objects()
      ensures IsResourceAllocated(rtype, id) <==> Busy(Table(), Key(rtype, id))
    {
      assert Has(resources, Key(rtype, id)) <==> Key(rtype, id) in keys;
      rtype in resources && id in resources[rtype] && resources[rtype][id].taken
    }

    // The check loop over the list of one type.
    method FirstBusyOf(rtype: string, ids: seq<string>) returns (busy: Option<Key>)
      requires Valid()
      ensures Valid() && Table() == old(Table())
      ensures busy.Some? <==> AnyBusy(Table(), KeysOf(rtype, ids))
      ensures busy.Some? ==> busy.value.rtype == rtype && busy.value.id in ids && Busy(Table(), busy.value)
    {
      hide Valid, Table;
      for j := 0 to |ids|
        invariant forall i :: 0 <= i < j ==> !Busy(Table(), KeysOf(rtype, ids)[i])
      {
        assert KeysOf(rtype, ids)[j] == Key(rtype, ids[j]);
        if IsResourceAllocated(rtype, ids[j]) {
          return Some(Key(rtype, ids[j]));
        }
      }
      return None;
    }

    // The check loop: a requested resource found taken, if any.
    method FirstBusy(req: Request) returns (busy: Option<Key>, ghost order: seq<string>)
      requires Valid()
      ensures IsOrder(order, req)
      ensures busy.Some? <==> AnyBusy(Table(), Flat(req, order))
      ensures busy.Some? ==> Asks(req, busy.value) && Busy(Table(), busy.value)
    {
      var types := ArbitraryOrder(req);
      order := types;
      assert Valid() && Table() == old(Table());
      assert types[..0] == [] && !AnyBusy(Table(), []);
      hide Valid, Table, AnyBusy, Flat;
      for i := 0 to |types|
        invariant Valid() && Table() == old(Table())
        invariant !AnyBusy(Table(), Flat(req, types[..i]))
      {
        BusyStep(Table(), req, types, i);
        busy := FirstBusyOf(types[i], req[types[i]]);
        if busy.Some? {
          return;
        }
      }
      assert types[..|types|] == types;
      busy := None;
    }

    // The allocate loop over the list of one type; n counts the successes.
    method AllocateList(rtype: string, ids: seq<string>) returns (n: nat, err: Option<Error>)
      requires Valid()
      modifies Objects()
      ensures Valid()
      ensures (Table(), n) == AllocateAll(old(Table()), KeysOf(rtype, ids))
      ensures err.None? <==> n == |ids|
      ensures err.Some? ==> IsCause(resources, Key(rtype, ids[n]), err.value)
    {
      hide Valid, Table;
      var keys := KeysOf(rtype, ids);
      n := 0;
      assert keys[..0] == [];
      while n < |ids|
        invariant n <= |ids| && Valid()
        invariant AllocateAll(old(Table()), keys[..n]) == (Table(), n)
      {
        AllocateStep(old(Table()), keys, n);
        err := Allocate(rtype, ids[n]);
        if err.Some? {
          return;
        }
        n := n + 1;
      }
      assert keys[..n] == keys;
      err := None;
    }

    // Releases the resources of one list, and says how many of them could not be released.
    method ReleaseList(rtype: string, ids: seq<string>) returns (errors: nat)
      requires Valid()
      modifies Objects()
      ensures Valid()
      ensures Table() == ReleaseAll(old(Table()), KeysOf(rtype, ids))
      ensures errors == 0 <==> AllHeld(old(Table()), KeysOf(rtype, ids))
    {
      hide Valid, Table;
      errors := 0;
      var keys := KeysOf(rtype, ids);
      assert keys[..0] == [];
      for j := 0 to |ids|
        invariant Valid()
        invariant Table() == ReleaseAll(old(Table()), keys[..j])
        invariant errors == 0 <==> AllHeld(old(Table()), keys[..j])
      {
        ReleaseStep(old(Table()), keys, j);
        var err := Release(rtype, ids[j]);
        if err.Some? {
          errors := errors + 1;
        }
      }
      assert keys[..|ids|] == keys;
    }

    // The rollback loop over the list of one type, broken off at the failed resource.
    method RollbackList(rtype: string, ids: seq<string>, failed: Key)
      requires Valid()
      modifies Objects()
      ensures Valid()
      ensures Table() == ReleaseAll(old(Table()), KeysOf(rtype, Undone(rtype, ids, failed)))
    {
      hide Valid, Table;
      var keys := KeysOf(rtype, ids);
      var j := 0;
      assert keys[..0] == [];
      while j < |ids| && !(rtype == failed.rtype && ids[j] == failed.id)
        invariant j <= |ids| && Valid()
        invariant rtype == failed.rtype ==> failed.id !in ids[..j]
        invariant Table() == ReleaseAll(old(Table()), keys[..j])
      {
        ReleaseStep(old(Table()), keys, j);
        var err := Release(rtype, ids[j]);
        j := j + 1;
      }
      UndoneIs(rtype, ids, failed, j);
      assert keys[..j] == KeysOf(rtype, ids[..j]);
    }

    /** Releases what was allocated before the failure, list by list; the break ends one list only. */
    method RollbackAllocation(req: Request, failed: Key) returns (ghost order: seq<string>)
      requires Valid()
      modifies Objects()
      ensures Valid() && IsOrder(order, req)
      ensures Table() == ReleaseAll(old(Table()), RollbackFlat(req, order, failed))
    {
      hide Valid, Table;
      var types := ArbitraryOrder(req);
      order := types;
      assert types[..0] == [];
      for i := 0 to |types|
        invariant Valid()
        invariant Table() == ReleaseAll(old(Table()), RollbackFlat(req, types[..i], failed))
      {
        RollbackStep(old(Table()), req, types, i, failed);
        RollbackList(types[i], req[types[i]], failed);
      }
      assert types[..|types|] == types;
    }

    /** Allocates everything a task asks for, or rolls back. The three orders are the ones its loops happened to use. */
    method AllocateForTask(req: Request) returns (err: Option<Error>, ghost check: seq<string>, ghost alloc: seq<string>, ghost undo: seq<string>)
      requires Valid()
      modifies Objects()
      ensures Valid()
      ensures IsOrder(check, req) && IsOrder(alloc, req) && IsOrder(undo, req)
      ensures (Table(), OutcomeOf(err)) == ResourceTable.AllocateForTask(old(Table()), req, check, alloc, undo)
      ensures err.None? <==> DuplicateFree(req) && forall k :: Asks(req, k) ==> CanAllocate(old(Table()), k)
      ensures err.Some? && DuplicateFree(req) ==> Table() == old(Table())
      ensures err.Some? ==>
                match err.value
                case AlreadyAllocated(k) => Asks(req, k) && Busy(old(Table()), k)
                case AllocationFailed(k, cause) => Asks(req, k) && IsCause(resources, k, cause)
                case _ => false
    {
      ghost var before := Table();
      assert WellFormed(before);
      hide Valid, Table;
      var busy;
      busy, check := FirstBusy(req);
      if busy.Some? {
        alloc, undo := check, check;
        GrantedIff(old(Table()), req, check, check, check);
        return Some(AlreadyAllocated(busy.value)), check, alloc, undo;
      }
      err, alloc, undo := AllocateOrUndo(req);
      GrantedIff(old(Table()), req, check, alloc, undo);
      if DuplicateFree(req) { DuplicateFreeIsAllOrNothing(old(Table()), req, check, alloc, undo); }
    }

    // The allocate loop, up to the first resource that cannot be had; n counts the successes.
    method AllocateLists(req: Request, types: seq<string>) returns (failed: Option<(Key, Error)>, ghost n: nat)
      requires Valid() && forall x :: x in types ==> x in req
      modifies Objects()
      ensures Valid()
      ensures (Table(), n) == AllocateAll(old(Table()), Flat(req, types))
      ensures failed.None? <==> n == |Flat(req, types)|
      ensures failed.Some? ==> failed.value.0 == Flat(req, types)[n] && Asks(req, failed.value.0) && IsCause(resources, failed.value.0, failed.value.1)
    {
      hide *;
      ghost var before := Table();
      WalkStart(before, req, types);
      n := 0;
      for i := 0 to |types|
        invariant Valid() && Walked(before, req, types, i, Table(), n)
      {
        ghost var now := Table();
        var done, failure := AllocateList(types[i], req[types[i]]);
        WalkStep(before, req, types, i, now, n, Table(), done);
        n := n + done;
        if failure.Some? {
          AskedAt(req, types[i], done);
          return Some((Key(types[i], req[types[i]][done]), failure.value)), n;
        }
      }
      WalkEnd(before, req, types, Table(), n);
      failed := None;
    }

    // The allocate loop, with the rollback it falls into.
    method AllocateOrUndo(req: Request) returns (err: Option<Error>, ghost alloc: seq<string>, ghost undo: seq<string>)
      requires Valid()
      modifies Objects()
      ensures Valid()
      ensures IsOrder(alloc, req) && IsOrder(undo, req)
      ensures var ks := Flat(req, alloc);
              var (taken, n) := AllocateAll(old(Table()), ks);
              && (n == |ks| ==> err == None && Table() == taken)
              && (n < |ks| ==> err.Some? && err.value.AllocationFailed? && err.value.key == ks[n]
                               && Asks(req, ks[n]) && IsCause(resources, ks[n], err.value.cause)
                               && Table() == ReleaseAll(taken, RollbackFlat(req, undo, ks[n])))
    {
      hide Valid, Table, Flat, AllocateAll, ReleaseAll, RollbackFlat, IsCause, Asks;
      var types := ArbitraryOrder(req);
      alloc, undo := types, types;
      var failed, n := AllocateLists(req, types);
      if failed.None? { return None, alloc, undo; }
      var (key, cause) := failed.value;
      undo := RollbackAllocation(req, key);
      err := Some(AllocationFailed(key, cause));
    }

    /** Releases everything a task names; it reports an error when something was not allocated, and releases the rest all the same. */
    method ReleaseForTask(req: Request) returns (err: Option<Error>, ghost order: seq<string>)
      requires Valid()
      modifies Objects()
      ensures Valid() && IsOrder(order, req)
      ensures Table() == map k | k in old(Table()) :: if Asks(req, k) then FREE else old(Table())[k]
      ensures err.None? <==> AllHeld(old(Table()), Flat(req, order))
    {
      assert WellFormed(Table());
      hide Valid, Table;
      var types := ArbitraryOrder(req);
      order := types;
      var errors := 0;
      assert types[..0] == [] && Flat(req, []) == [] && AllHeld(Table(), []) && ReleaseAll(Table(), []) == Table();
      hide Flat, ReleaseAll, AllHeld;
      for i := 0 to |types|
        invariant Valid() && errors >= 0
        invariant Table() == ReleaseAll(old(Table()), Flat(req, types[..i]))
        invariant errors == 0 <==> AllHeld(old(Table()), Flat(req, types[..i]))
      {
        ReleaseListStep(old(Table()), req, types, i);
        var more := ReleaseList(types[i], req[types[i]]);
        errors := errors + more;
      }
      assert types[..|types|] == types;
      ReleaseAllAsked(old(Table()), req, types);
      return if errors > 0 then Some(ReleaseErrors(errors)) else None, types;
    }

    // Frees one resource, allocated or not.
    method StopOne(rtype: string, id: string)
      requires Valid() && Has(resources, Key(rtype, id))
      modifies Objects()
      ensures Valid()
      ensures Table() == old(Table())[Key(rtype, id) := FREE]
    {
      var resource := resources[rtype][id];
      if resource.taken {
        resource.taken := false;
        resource.allocatedTo := "";
      }
    }

    // Frees the resources of one type.
    method StopType(rtype: string)
      requires Valid() && rtype in resources
      modifies Objects()
      ensures Valid()
      ensures Table() == map k | k in old(Table()) :: if k.rtype == rtype then FREE else old(Table())[k]
    {
      assert forall k :: k in Table() <==> Has(resources, k);
      hide Valid, Table, StoppedBut;
      var ids := resources[rtype].Keys;
      StoppedStart(Table(), rtype, ids);
      StoppedEnd(Table(), rtype);
      while ids != {}
        invariant ids <= resources[rtype].Keys && Valid()
        invariant Table() == StoppedBut(old(Table()), rtype, ids)
        decreases ids
      {
        var i :| i in ids;
        assert Has(resources, Key(rtype, i));
        StopOne(rtype, i);
        StoppedStep(old(Table()), rtype, ids, i);
        ids := ids - {i};
      }
    }

    /** Shutting down frees every resource. */
    method Stop()
      requires Valid()
      modifies Objects()
      ensures Valid()
      ensures Table() == map k | k in old(Table()) :: Cell(false, "")
    {
      assert forall k :: k in Table() <==> Has(resources, k);
      hide Valid, Table, TypesStoppedBut;
      var left := resources.Keys;
      TypesStopped(Table(), left);
      while left != {}
        invariant left <= resources.Keys && Valid()
        invariant Table() == TypesStoppedBut(old(Table()), left)
        decreases left
      {
        var x :| x in left;
        TypesStoppedStep(old(Table()), left, x);
        StopType(x);
        left := left - {x};
      }
    }
  }

  // The table with the resources of a type freed, except for some IDs.
  ghost function StoppedBut(t: Table, rtype: string, ids: set<string>): Table {
    map k | k in t :: if k.rtype == rtype && k.id !in ids then FREE else t[k]
  }

  lemma StoppedStart(t: Table, rtype: string, ids: set<string>)
    requires forall k :: k in t && k.rtype == rtype ==> k.id in ids
    ensures StoppedBut(t, rtype, ids) == t
  {
  }

  lemma StoppedStep(t: Table, rtype: string, ids: set<string>, i: string)
    requires Key(rtype, i) in t
    ensures StoppedBut(t, rtype, ids - {i}) == StoppedBut(t, rtype, ids)[Key(rtype, i) := FREE]
  {
    assert forall k :: k == Key(rtype, i) <==> k.rtype == rtype && k.id == i;
  }

  lemma StoppedEnd(t: Table, rtype: string)
    ensures StoppedBut(t, rtype, {}) == map k | k in t :: if k.rtype == rtype then FREE else t[k]
  {
  }

  // The table with everything freed, except for some types.
  ghost function TypesStoppedBut(t: Table, types: set<string>): Table {
    map k | k in t :: if k.rtype !in types then FREE else t[k]
  }

  lemma TypesStopped(t: Table, types: set<string>)
    requires forall k :: k in t ==> k.rtype in types
    ensures TypesStoppedBut(t, types) == t
    ensures TypesStoppedBut(t, {}) == map k | k in t :: FREE
  {
  }

  lemma TypesStoppedStep(t: Table, types: set<string>, x: string)
    requires x in types
    ensures TypesStoppedBut(t, types - {x})
         == map k | k in TypesStoppedBut(t, types) :: if k.rtype == x then FREE else TypesStoppedBut(t, types)[k]
  {
  }

  // The lists before the i-th have been allocated.
  ghost predicate Walked(t: Table, req: Request, types: seq<string>, i: nat, now: Table, n: nat)
    requires i <= |types| && forall x :: x in types ==> x in req
  {
    n == |Flat(req, types[..i])| && AllocateAll(t, Flat(req, types[..i])) == (now, n)
  }

  lemma WalkStart(t: Table, req: Request, types: seq<string>)
    requires forall x :: x in types ==> x in req
    ensures Walked(t, req, types, 0, t, 0)
  {
    assert types[..0] == [];
  }

  lemma WalkStep(t: Table, req: Request, types: seq<string>, i: nat, now: Table, n: nat, next: Table, done: nat)
    requires i < |types| && (forall x :: x in types ==> x in req) && Walked(t, req, types, i, now, n)
    requires (next, done) == AllocateAll(now, KeysOf(types[i], req[types[i]]))
    ensures done == |req[types[i]]| ==> Walked(t, req, types, i + 1, next, n + done)
    ensures done < |req[types[i]]| ==>
              && AllocateAll(t, Flat(req, types)) == (next, n + done)
              && n + done < |Flat(req, types)| && Flat(req, types)[n + done] == Key(types[i], req[types[i]][done])
  {
    hide Flat, AllocateAll;
    AllocateListStep(t, req, types, i);
    FlatStep(req, types, i);
  }

  lemma WalkEnd(t: Table, req: Request, types: seq<string>, now: Table, n: nat)
    requires (forall x :: x in types ==> x in req) && Walked(t, req, types, |types|, now, n)
    ensures AllocateAll(t, Flat(req, types)) == (now, n) && n == |Flat(req, types)|
  {
    assert types[..|types|] == types;
  }

  lemma AskedAt(req: Request, x: string, n: nat)
    requires x in req && n < |req[x]|
    ensures Asks(req, Key(x, req[x][n]))
  {
  }

  function OutcomeOf(err: Option<Error>): Outcome {
    if err.None? then Granted else if err.value.AllocationFailed? then Failed(err.value.key) else Refused
  }

  // Every key of the walk is held when its turn to be released comes.
  predicate AllHeld(t: Table, ks: seq<Key>)
    decreases ks
  {
    ks == [] || (Busy(t, ks[0]) && AllHeld(Released(t, ks[0]), ks[1..]))
  }

  lemma {:induction false} AllHeldAppend(t: Table, a: seq<Key>, b: seq<Key>)
    ensures AllHeld(t, a + b) <==> AllHeld(t, a) && AllHeld(ReleaseAll(t, a), b)
    decreases a
  {
    if a == [] {
      assert a + b == b;
    } else {
      assert (a + b)[1..] == a[1..] + b;
      AllHeldAppend(Released(t, a[0]), a[1..], b);
    }
  }

  lemma AnyBusyAppend(t: Table, a: seq<Key>, b: seq<Key>)
    ensures AnyBusy(t, a + b) <==> AnyBusy(t, a) || AnyBusy(t, b)
  {
    if i :| 0 <= i < |a| && Busy(t, a[i]) { assert (a + b)[i] == a[i]; }
    if i :| 0 <= i < |b| && Busy(t, b[i]) { assert (a + b)[|a| + i] == b[i]; }
  }

  lemma BusyStep(t: Table, req: Request, types: seq<string>, i: nat)
    requires i < |types| && forall x :: x in types ==> x in req
    ensures var here := KeysOf(types[i], req[types[i]]);
            && (AnyBusy(t, Flat(req, types[..i + 1])) <==> AnyBusy(t, Flat(req, types[..i])) || AnyBusy(t, here))
            && (AnyBusy(t, here) ==> AnyBusy(t, Flat(req, types)))
  {
    hide AnyBusy;
    var here, later := KeysOf(types[i], req[types[i]]), Flat(req, types[i + 1..]);
    FlatStep(req, types, i);
    AnyBusyAppend(t, Flat(req, types[..i]), here);
    AnyBusyAppend(t, Flat(req, types[..i]), here + later);
    AnyBusyAppend(t, here, later);
  }

  lemma AllocateStep(t: Table, ks: seq<Key>, n: nat)
    requires n < |ks| && AllocateAll(t, ks[..n]).1 == n
    ensures var now := AllocateAll(t, ks[..n]).0;
            && (CanAllocate(now, ks[n]) ==> AllocateAll(t, ks[..n + 1]) == (Allocated(now, ks[n]), n + 1))
            && (!CanAllocate(now, ks[n]) ==> AllocateAll(t, ks) == (now, n))
  {
    AllocateAllAppend(t, ks[..n], ks[n..]);
    AllocateAllAppend(t, ks[..n], [ks[n]]);
    assert ks == ks[..n] + ks[n..] && ks[..n + 1] == ks[..n] + [ks[n]] && [ks[n]][1..] == [];
  }

  lemma AllocateListStep(t: Table, req: Request, types: seq<string>, i: nat)
    requires i < |types| && forall x :: x in types ==> x in req
    requires AllocateAll(t, Flat(req, types[..i])).1 == |Flat(req, types[..i])|
    ensures var now := AllocateAll(t, Flat(req, types[..i])).0;
            var m := |Flat(req, types[..i])|;
            var (next, n) := AllocateAll(now, KeysOf(types[i], req[types[i]]));
            && (n == |req[types[i]]| ==> AllocateAll(t, Flat(req, types[..i + 1])) == (next, |Flat(req, types[..i + 1])|))
            && (n < |req[types[i]]| ==> AllocateAll(t, Flat(req, types)) == (next, m + n)
                                        && m + n < |Flat(req, types)|
                                        && Flat(req, types)[m + n] == Key(types[i], req[types[i]][n]))
  {
    hide *;
    FlatStep(req, types, i);
    var here := KeysOf(types[i], req[types[i]]);
    AllocatePart(t, Flat(req, types[..i]), here, Flat(req, types[i + 1..]));
    assert |Flat(req, types[..i + 1])| == |Flat(req, types[..i])| + |here|;
  }

  // Going on with a part of the walk, and stopping inside it.
  lemma AllocatePart(t: Table, done: seq<Key>, here: seq<Key>, later: seq<Key>)
    requires AllocateAll(t, done).1 == |done|
    ensures var (next, n) := AllocateAll(AllocateAll(t, done).0, here);
            && AllocateAll(t, done + here) == (next, |done| + n)
            && (n < |here| ==> AllocateAll(t, done + (here + later)) == (next, |done| + n)
                               && (done + (here + later))[|done| + n] == here[n])
  {
    AllocateAllAppend(t, done, here);
    AllocateAllAppend(t, done, here + later);
    if AllocateAll(AllocateAll(t, done).0, here).1 < |here| {
      StopsInside(AllocateAll(t, done).0, here, later);
    }
  }

  lemma ReleaseListStep(t: Table, req: Request, types: seq<string>, i: nat)
    requires i < |types| && forall x :: x in types ==> x in req
    ensures var now := ReleaseAll(t, Flat(req, types[..i]));
            var here := KeysOf(types[i], req[types[i]]);
            && ReleaseAll(t, Flat(req, types[..i + 1])) == ReleaseAll(now, here)
            && (AllHeld(t, Flat(req, types[..i + 1])) <==> AllHeld(t, Flat(req, types[..i])) && AllHeld(now, here))
  {
    FlatStep(req, types, i);
    ReleaseAllAppend(t, Flat(req, types[..i]), KeysOf(types[i], req[types[i]]));
    AllHeldAppend(t, Flat(req, types[..i]), KeysOf(types[i], req[types[i]]));
  }

  lemma ReleaseAllAsked(t: Table, req: Request, types: seq<string>)
    requires WellFormed(t) && IsOrder(types, req)
    ensures ReleaseAll(t, Flat(req, types)) == map k | k in t :: if Asks(req, k) then FREE else t[k]
  {
    ReleaseAllFrees(t, Flat(req, types));
    forall k ensures k in Flat(req, types) <==> Asks(req, k) { FlatHas(req, types, k); }
  }

  lemma ReleaseStep(t: Table, ks: seq<Key>, j: nat)
    requires j < |ks|
    ensures ReleaseAll(t, ks[..j + 1]) == Released(ReleaseAll(t, ks[..j]), ks[j])
    ensures AllHeld(t, ks[..j + 1]) <==> AllHeld(t, ks[..j]) && Busy(ReleaseAll(t, ks[..j]), ks[j])
  {
    assert ks[..j + 1] == ks[..j] + [ks[j]] && [ks[j]][1..] == [];
    ReleaseAllAppend(t, ks[..j], [ks[j]]);
    AllHeldAppend(t, ks[..j], [ks[j]]);
  }

  lemma FlatStep(req: Request, order: seq<string>, i: nat)
    requires i < |order| && forall x :: x in order ==> x in req
    ensures Flat(req, order[..i + 1]) == Flat(req, order[..i]) + KeysOf(order[i], req[order[i]])
    ensures Flat(req, order) == Flat(req, order[..i]) + (KeysOf(order[i], req[order[i]]) + Flat(req, order[i + 1..]))
  {
    assert order[..i + 1] == order[..i] + [order[i]] && order == order[..i] + order[i..];
    FlatAppend(req, order[..i], [order[i]]);
    FlatAppend(req, order[..i], order[i..]);
    assert order[i..][0] == order[i] && order[i..][1..] == order[i + 1..] && [order[i]][1..] == [];
  }

  lemma RollbackStep(t: Table, req: Request, types: seq<string>, i: nat, failed: Key)
    requires i < |types| && forall x :: x in types ==> x in req
    ensures ReleaseAll(t, RollbackFlat(req, types[..i + 1], failed))
         == ReleaseAll(ReleaseAll(t, RollbackFlat(req, types[..i], failed)), KeysOf(types[i], Undone(types[i], req[types[i]], failed)))
  {
    var ids := Undone(types[i], req[types[i]], failed);
    assert types[..i + 1] == types[..i] + [types[i]];
    RollbackFlatAppend(req, types[..i], [types[i]], failed);
    assert [types[i]][1..] == [];
    assert RollbackFlat(req, [types[i]], failed) == KeysOf(types[i], ids);
    ReleaseAllAppend(t, RollbackFlat(req, types[..i], failed), KeysOf(types[i], ids));
  }

  lemma {:induction false} StopsInside(t: Table, a: seq<Key>, b: seq<Key>)
    requires AllocateAll(t, a).1 < |a|
    ensures AllocateAll(t, a + b) == AllocateAll(t, a)
    decreases a
  {
    assert (a + b)[0] == a[0] && (a + b)[1..] == a[1..] + b;
    if CanAllocate(t, a[0]) {
      StopsInside(Allocated(t, a[0]), a[1..], b);
    }
  }

  lemma UndoneIs(rtype: string, ids: seq<string>, failed: Key, j: nat)
    requires j <= |ids| && (rtype == failed.rtype ==> failed.id !in ids[..j])
    requires j < |ids| ==> rtype == failed.rtype && ids[j] == failed.id
    ensures Undone(rtype, ids, failed) == ids[..j]
  {
    assert ids[..|ids|] == ids;
    if j < |ids| {
      BeforeIs(ids, failed.id, j);
    } else if rtype == failed.rtype {
      BeforeAll(ids, failed.id);
    }
  }

  lemma {:induction false} BeforeAll(ids: seq<string>, id: string)
    requires id !in ids
    ensures Before(ids, id) == ids
    decreases ids
  {
    if ids != [] {
      assert ids[0] in ids;
      BeforeAll(ids[1..], id);
    }
  }

  /** Some order in which a range visits the types of a request. */
  method ArbitraryOrder(req: Request) returns (order: seq<string>)
    ensures IsOrder(order, req)
  {
    order := [];
    var rest := req.Keys;
    while rest != {}
      invariant Distinct(order) && rest <= req.Keys
      invariant forall y :: y in order <==> y in req && y !in rest
      decreases rest
    {
      var y :| y in rest;
      order, rest := order + [y], rest - {y};
    }
  }
}
