/** FleetNetAllocator as it runs on one host, against a store that other hosts change between
    any two of its requests (internal/usecase/fleet_net_allocator.go). */
module NetAllocator {
  import opened Text
  import opened NetPlane
  import opened LeaseProtocol

  /** The shared lease table. Every request is preceded by Interfere: whatever the rest of the
      fleet did in the meantime, of which only the fences are known. */
  class LeaseStore {
    var table: set<NetLease>

    ghost predicate Valid()
      reads this
    {
      Fenced(table)
    }

    constructor ()
      ensures Valid() && table == {}
    {
      table := {};
    }

    method Interfere()
      requires Valid()
      modifies this
      ensures Valid()
    {
    }

    method FindByOwner(c: Call) returns (a: Answer)
      requires Valid()
      modifies this
      ensures Valid() && LookupServed(c, table, a, table)
    {
      Interfere();
      var hits := set l | l in table && Holds(l, c.kind, c.owner);
      if * {
        a := Broken;
      } else if hits == {} {
        assert forall l :: l in table && Holds(l, c.kind, c.owner) ==> l in hits;
        a := Missing;
      } else {
        var l :| l in hits;
        a := Found(l);
      }
    }

    /** A hint, never a guarantee: any list of slots may come back. */
    method UsedSlots() returns (a: Answer)
      requires Valid()
      modifies this
      ensures Valid() && (a.Slots? || a.Broken?)
    {
      Interfere();
      var used: seq<int> := *;
      var freshId: Id := *;
      var now: int := *;
      a := Slots(used, freshId, now);
      if * {
        a := Broken;
      }
    }

    method Insert(c: Call, ghost p: Phase, lease: NetLease) returns (a: Answer, ghost before: set<NetLease>)
      requires Valid() && p.Claiming? && p.lease == lease
      modifies this
      ensures Valid() && Fenced(before) && Served(c, p, before, a, table)
    {
      Interfere();
      before := table;
      if Admits(table, lease) {
        var landed: bool := *;
        if landed {
          table := table + {lease};
        }
        a := if landed then Won else Broken;
        if * {
          a := Broken;
        }
      } else {
        a := Conflict;
        if * {
          a := Broken;
        }
      }
    }

    /** DELETE by owner key; deleting nothing is a success. */
    method Delete(kind: OwnerKind, owner: Id) returns (ok: bool, ghost before: set<NetLease>)
      requires Valid()
      modifies this
      ensures Valid() && Fenced(before)
      ensures table == if ok then set l | l in before && !Holds(l, kind, owner) else before
    {
      Interfere();
      before := table;
      ok := *;
      if ok {
        table := set l | l in table && !Holds(l, kind, owner);
      }
    }
  }

  datatype ReleaseError = ReleaseNoStore | ReleaseNoIdentity | ReleaseLookupFailed | HeldByAnotherHost | DeleteFailed

  class FleetNetAllocator {
    const store: LeaseStore
    const plane: Plane

    constructor (store: LeaseStore, plane: Plane)
      ensures this.store == store && this.plane == plane
    {
      this.store := store;
      this.plane := plane;
    }

    /** Whatever the rest of the fleet does meanwhile, the call is a well-served log of the
        protocol that ends in the returned outcome, so everything proved of such logs (a held
        lease, at most 32 distinct slots, at most 97 requests, the lowest free slot) is true of this
        loop. A lease the owner already holds when the first lookup is answered is returned as it is, or,
        on another host, refused. */
    method Acquire(kind: OwnerKind, owner: Id) returns (r: Outcome, ghost log: seq<Event>)
      requires store.Valid()
      modifies store
      ensures store.Valid()
      ensures WellServed(Call(plane, kind, owner), log)
      ensures PhaseAfter(Call(plane, kind, owner), log) == Finished(r)
      ensures |InsertedSlots(Call(plane, kind, owner), log)| <= ACQUIRE_ATTEMPTS
      ensures NoDuplicates(InsertedSlots(Call(plane, kind, owner), log))
      ensures r.Ok? ==> ForCall(Call(plane, kind, owner), r.value)
      ensures r.Ok? ==> exists i :: 0 <= i < |log| && r.value in log[i].after
      ensures log != [] <==> Asks(Call(plane, kind, owner))
      ensures log != [] && !log[0].answer.Broken? ==>
                forall l :: l in log[0].before && l.ownerKind == kind && l.ownerId == owner ==>
                  |log| == 1 && r == if l.hostId == plane.selfHost then Ok(l) else Err(HeldElsewhere)
      ensures log == [] ==> r == Err(if !plane.wired then NoStore else if kind.Unrecognised? then BadOwnerKind
                                     else if owner == 0 then NilOwner else if plane.selfHost == 0 then NoHostIdentity
                                     else OrdinalUnset)
    {
      var c := Call(plane, kind, owner);
      r, log := AcquireLoop(c);
      AttemptsAreBoundedAndDistinct(c, log);
      if r.Ok? {
        ReturnedLeaseWasHeld(c, log);
      }
      if log != [] && !log[0].answer.Broken? {
        forall l | l in log[0].before && l.ownerKind == kind && l.ownerId == owner
          ensures |log| == 1 && r == if l.hostId == plane.selfHost then Ok(l) else Err(HeldElsewhere)
        {
          HeldLeaseIsReturned(c, log, l);
        }
      }
    }

    method AcquireLoop(c: Call) returns (r: Outcome, ghost log: seq<Event>)
      requires store.Valid() && c.plane == plane
      modifies store
      ensures store.Valid() && WellServed(c, log) && PhaseAfter(c, log) == Finished(r)
      ensures (log != [] <==> Asks(c)) && (log != [] ==> Fenced(log[0].before))
      ensures log == [] ==> r == Err(if !plane.wired then NoStore else if c.kind.Unrecognised? then BadOwnerKind
                                     else if c.owner == 0 then NilOwner else if plane.selfHost == 0 then NoHostIdentity
                                     else OrdinalUnset)
    {
      hide Propose;
      hide LowestFree;
      hide SelfConsistent;
      log := [];
      if !plane.wired { return Err(NoStore), log; }
      if c.kind.Unrecognised? { return Err(BadOwnerKind), log; }
      if c.owner == NIL_ID { return Err(NilOwner), log; }
      if plane.selfHost == NIL_ID { return Err(NoHostIdentity), log; }
      if plane.ordinal < 0 { return Err(OrdinalUnset), log; }

      var existing := store.FindByOwner(c);
      ghost var e := Event(store.table, existing, store.table);
      LogExtended(c, log, e);
      log := log + [e];
      if existing.Broken? { return Err(LookupFailed), log; }
      if existing.Found? {
        if existing.held.hostId != plane.selfHost { return Err(HeldElsewhere), log; }
        return Ok(existing.held), log;
      }

      var tried: set<int> := {};
      var attempt := 0;
      while attempt < ACQUIRE_ATTEMPTS
        invariant attempt <= ACQUIRE_ATTEMPTS
        invariant store.Valid() && WellServed(c, log) && log != [] && Fenced(log[0].before)
        invariant PhaseAfter(c, log) ==
                  if attempt < ACQUIRE_ATTEMPTS then Listing(tried, attempt) else Finished(Err(AttemptsSpent))
      {
        var ended, outcome, slot;
        ghost var first := log[0];
        ended, outcome, slot, log := Attempt(c, tried, attempt, log);
        assert log[0] == first;
        if ended { return outcome, log; }
        tried := tried + {slot};
        attempt := attempt + 1;
      }
      r := Err(AttemptsSpent);
    }

    /** One round of the loop: list, claim, and on a conflict look the owner up again. */
    method Attempt(c: Call, tried: set<int>, attempt: nat, ghost sofar: seq<Event>)
      returns (ended: bool, outcome: Outcome, slot: int, ghost log: seq<Event>)
      requires store.Valid() && c.plane == plane && attempt < ACQUIRE_ATTEMPTS
      requires WellServed(c, sofar) && PhaseAfter(c, sofar) == Listing(tried, attempt)
      modifies store
      ensures store.Valid() && WellServed(c, log) && |log| >= |sofar| && log[..|sofar|] == sofar
      ensures ended ==> PhaseAfter(c, log) == Finished(outcome)
      ensures !ended ==> PhaseAfter(c, log) == Next(c, Rechecking(tried, attempt, slot), Missing)
    {
      hide Propose;
      hide LowestFree;
      hide Admits;
      hide Fenced;
      hide WellServed;
      log := sofar;
      slot := 0;
      ended := true;
      var listed := store.UsedSlots();
      ghost var e := Event(store.table, listed, store.table);
      LogExtended(c, log, e);
      log := log + [e];
      if listed.Broken? { outcome := Err(SlotListFailed); return; }

      outcome := ProposeLease(c, Taken(listed.used, tried), listed.freshId, listed.now);
      if outcome.Err? { return; }
      var lease := outcome.value;

      var answer, before := store.Insert(c, Claiming(tried, attempt, lease), lease);
      e := Event(before, answer, store.table);
      LogExtended(c, log, e);
      log := log + [e];
      if answer.Won? { return; }
      if !answer.Conflict? { outcome := Err(InsertFailed); return; }

      slot := lease.at.localSlot;
      var held := store.FindByOwner(c);
      e := Event(store.table, held, store.table);
      LogExtended(c, log, e);
      log := log + [e];
      if held.Found? && held.held.hostId == plane.selfHost { outcome := Ok(held.held); return; }
      ended := false;
    }

    method ProposeLease(c: Call, taken: set<int>, freshId: Id, now: int) returns (r: Outcome)
      requires c.plane == plane
      ensures r == Propose(c, taken, freshId, now)
    {
      var slot := LowestFreeSlot(taken);
      if slot == 0 { return Err(Exhausted); }
      var derived := Derive(plane.ordinal, slot, plane.uidBase);
      if derived.Err? { return Err(OutOfPlane(derived.error)); }
      if derived.value.vmUid >= plane.uidBase + plane.uidSpan { return Err(UidOutsideSpan); }
      r := Ok(NetLease(freshId, plane.selfHost, derived.value, c.kind, c.owner, now));
    }

    method LowestFreeSlot(taken: set<int>) returns (slot: int)
      ensures slot == LowestFree(taken, 1)
    {
      var candidate := 1;
      while candidate <= NET_MAX_SLOT
        invariant 1 <= candidate <= NET_MAX_SLOT + 1
        invariant LowestFree(taken, 1) == LowestFree(taken, candidate)
      {
        if candidate !in taken {
          return candidate;
        }
        candidate := candidate + 1;
      }
      slot := 0;
    }

    /** Release, with the rest of the fleet acting before the lookup and again before the delete. A row
        is deleted only after the lookup saw this host hold the owner's lease; only rows of that owner
        can go; after success nobody holds one for it. Unless the owner's row moved to another host
        between the two, no other host's row goes. It succeeds exactly when the lookup is answered, sees
        no lease of the owner elsewhere, and the delete it then needs goes through. */
    method Release(kind: OwnerKind, owner: Id)
      returns (r: Result<(), ReleaseError>, ghost seen: set<NetLease>, ghost met: set<NetLease>, ghost answer: Answer, ghost deleted: bool)
      requires store.Valid()
      modifies store
      ensures store.Valid() && Fenced(seen) && Fenced(met)
      ensures store.table == if deleted then set l | l in met && !Holds(l, kind, owner) else met
      ensures deleted ==> exists l :: l in seen && l.hostId == plane.selfHost && Holds(l, kind, owner)
      ensures r.Ok? ==> forall l :: l in store.table ==> !Holds(l, kind, owner)
      ensures (forall l :: l in met && Holds(l, kind, owner) ==> l.hostId == plane.selfHost) ==>
                forall l :: l in met && l.hostId != plane.selfHost ==> l in store.table
      ensures var asks := plane.wired && !kind.Unrecognised? && owner != 0;
              && (r.Ok? <==>
                    && asks && !answer.Broken?
                    && (forall l :: l in seen && Holds(l, kind, owner) ==> l.hostId == plane.selfHost)
                    && ((exists l :: l in seen && Holds(l, kind, owner)) ==> deleted))
              && (r == Err(HeldByAnotherHost) <==>
                    asks && !answer.Broken? && exists l :: l in seen && Holds(l, kind, owner) && l.hostId != plane.selfHost)
              && (r == Err(ReleaseLookupFailed) <==> asks && answer.Broken?)
    {
      seen, met := store.table, store.table;
      answer, deleted := Missing, false;
      if !plane.wired { return Err(ReleaseNoStore), seen, met, answer, deleted; }
      if kind.Unrecognised? || owner == NIL_ID { return Err(ReleaseNoIdentity), seen, met, answer, deleted; }
      var found := store.FindByOwner(Call(plane, kind, owner));
      seen, met, answer := store.table, store.table, found;
      if found.Missing? { return Ok(()), seen, met, answer, deleted; }
      if found.Broken? { return Err(ReleaseLookupFailed), seen, met, answer, deleted; }
      assert forall l :: l in seen && Holds(l, kind, owner) ==> Clash(found.held, l);
      if found.held.hostId != plane.selfHost { return Err(HeldByAnotherHost), seen, met, answer, deleted; }
      var ok;
      ok, met := store.Delete(kind, owner);
      deleted := ok;
      r := if ok then Ok(()) else Err(DeleteFailed);
    }
  }
}
