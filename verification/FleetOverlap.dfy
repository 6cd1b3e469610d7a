/** A reconcile pass acting on a listing that may be stale. ReconcileApp holds no lock: other passes, on
    this host or another, may act between its listing and its writes
    (internal/usecase/fleet_orchestrator.go:559-821). */
module FleetOverlap {
  import opened Text
  import opened FleetTypes
  import opened SurplusOrder
  import opened FleetPass
  import opened FleetPassFacts
  import opened FleetCapacity
  import opened Loops = FleetOrchestrator

  // ---------------------------------------------------------------- acting on a stale listing

  /** The occupants a listing shows, and those of them the pass finds dead, recorded or not. */
  ghost function Shown(listed: seq<Replica>): set<Id> { set r | r in listed && Occupies(r.state) :: r.id }

  ghost function Sick(self: Id, env: Env, listed: seq<Replica>): set<Id> {
    set r | r in listed && Probed(self, r) && ProbeOf(env, r.id) == Unhealthy :: r.id
  }

  ghost function Unrecorded(self: Id, env: Env, listed: seq<Replica>): set<Id> {
    set r | r in listed && Probed(self, r) && ProbeOf(env, r.id) == Unsaved :: r.id
  }

  lemma OccupantIds(self: Id, env: Env, listed: seq<Replica>)
    requires DistinctIds(listed)
    ensures var occupants := Occupants(LocalCopies(self, env, listed));
            && DistinctIds(occupants)
            && IdSet(occupants) == Shown(listed) - Sick(self, env, listed) - Unrecorded(self, env, listed)
  {
    var copies := LocalCopies(self, env, listed);
    var occupants := Occupants(copies);
    var want := Shown(listed) - Sick(self, env, listed) - Unrecorded(self, env, listed);
    assert DistinctIds(copies);
    OccupantsDistinct(copies);
    forall r | r in occupants ensures r.id in want {
      OccupantListed(self, env, listed, r);
    }
    forall r | r in listed && Occupies(r.state) && r.id in want ensures r in occupants {
      var i :| 0 <= i < |listed| && listed[i] == r;
      assert copies[i] == r;
    }
    assert IdSet(occupants) == want by {
      forall id | id in want ensures id in IdSet(occupants) {
        var r :| r in listed && Occupies(r.state) && r.id == id;
      }
    }
  }

  lemma OccupantListed(self: Id, env: Env, listed: seq<Replica>, r: Replica)
    requires DistinctIds(listed) && r in Occupants(LocalCopies(self, env, listed))
    ensures r.id in Shown(listed) - Sick(self, env, listed) - Unrecorded(self, env, listed)
  {
    var copies := LocalCopies(self, env, listed);
    var i :| 0 <= i < |copies| && copies[i] == r;
    assert listed[i] in listed && listed[i] == r;
    OnlyRow(listed, r);
  }

  lemma OnlyRow(listed: seq<Replica>, r: Replica)
    requires DistinctIds(listed) && r in listed
    ensures forall x :: x in listed && x.id == r.id ==> x == r
  {}

  /** The pass believes it sees the shown occupants less those it found dead. */
  lemma SeenCount(self: Id, env: Env, listed: seq<Replica>)
    requires DistinctIds(listed)
    ensures Seen(self, env, listed)
            == |Shown(listed)| - |Sick(self, env, listed)| - |Unrecorded(self, env, listed)|
    ensures Sick(self, env, listed) <= Shown(listed)
  {
    hide LocalCopies;
    var (shown, sick, lost) := (Shown(listed), Sick(self, env, listed), Unrecorded(self, env, listed));
    OccupantIds(self, env, listed);
    DistinctCount(Occupants(LocalCopies(self, env, listed)));
    forall id | id in sick ensures id !in lost {
      var r :| r in listed && Probed(self, r) && ProbeOf(env, r.id) == Unhealthy && r.id == id;
      OnlyRow(listed, r);
    }
    SubsetSize(sick, shown);
    SubsetSize(lost, shown - sick);
  }

  lemma {:induction false} DeadLoopShrinks(self: Id, env: Env, rows: Rows, listed: seq<Replica>, k: nat, a: Id)
    requires k <= |listed| && WellKeyed(rows)
    ensures var out := AfterDead(self, env, rows, listed, k);
            WellKeyed(out) && OccIds(out, a) <= OccIds(rows, a)
  {
    if k > 0 {
      DeadLoopShrinks(self, env, rows, listed, k - 1, a);
    }
  }

  /** No row comes back to life, and none found sick stays an occupant. */
  lemma {:induction false} HealthLoopShrinks(self: Id, env: Env, rows: Rows, listed: seq<Replica>, k: nat, a: Id)
    requires k <= |listed| && WellKeyed(rows)
    ensures var out := AfterHealth(self, env, rows, listed, k);
            WellKeyed(out) && OccIds(out, a) <= OccIds(rows, a) && OccIds(out, a) !! Sick(self, env, listed[..k])
  {
    if k > 0 {
      HealthLoopShrinks(self, env, rows, listed, k - 1, a);
      assert listed[..k] == listed[..k - 1] + [listed[k - 1]];
      assert Sick(self, env, listed[..k]) ==
             Sick(self, env, listed[..k - 1]) + Sick(self, env, [listed[k - 1]]);
    }
  }

  lemma CleanedByShrinks(self: Id, env: Env, rows: Rows, listed: seq<Replica>, a: Id)
    requires WellKeyed(rows)
    ensures var out := CleanedBy(self, env, rows, listed);
            WellKeyed(out) && OccIds(out, a) <= OccIds(rows, a) && OccIds(out, a) !! Sick(self, env, listed)
  {
    hide OccIds;
    hide Sick;
    var mid := AfterDead(self, env, rows, listed, |listed|);
    DeadLoopShrinks(self, env, rows, listed, |listed|, a);
    HealthLoopShrinks(self, env, mid, listed, |listed|, a);
    assert listed[..|listed|] == listed;
  }

  /** What finishing a pass does to the occupants: some of the old ones stay, some are made; and if any
      is made, then those that stay from the listing and those made together are at most the desired
      count and the deaths the pass could not record. */
  ghost predicate Splits(self: Id, app: App, env: Env, rows: Rows, listed: seq<Replica>, kept: set<Id>, made: set<Id>) {
    && OccIds(Finish(self, app, env, rows, listed).rows, app.id) <= kept + made
    && kept <= OccIds(rows, app.id)
    && (made == {} || |kept * Shown(listed)| + |made| <= app.desired + |Unrecorded(self, env, listed)|)
  }

  /** The four tables a pass can leave. */
  lemma FinishRows(self: Id, app: App, env: Env, rows: Rows, listed: seq<Replica>)
    ensures var (out, cleaned, seen) := (Finish(self, app, env, rows, listed).rows, CleanedBy(self, env, rows, listed), Seen(self, env, listed));
            || out == rows
            || out == cleaned
            || (seen < app.desired && out == Place(app, env, cleaned, 0, app.desired - seen).rows)
            || (exists ids :: out == Drained(env, cleaned, ids))
  {
    hide LocalCopies;
    hide CleanupActions;
    hide CleanedBy;
    hide DrainList;
    hide Place;
    hide Drained;
    hide FirstFailed;
  }

  lemma FinishSplits(self: Id, app: App, env: Env, rows: Rows, listed: seq<Replica>) returns (kept: set<Id>, made: set<Id>)
    requires WellKeyed(rows) && DistinctIds(listed)
    ensures WellKeyed(Finish(self, app, env, rows, listed).rows)
    ensures Splits(self, app, env, rows, listed, kept, made)
  {
    hide Finish;
    hide CleanedBy;
    hide OccIds;
    hide Shown;
    hide Sick;
    hide Unrecorded;
    hide Seen;
    hide Place;
    hide Drained;
    hide WellKeyed;
    hide DistinctIds;
    FinishRows(self, app, env, rows, listed);
    var (out, cleaned, seen) := (Finish(self, app, env, rows, listed).rows, CleanedBy(self, env, rows, listed), Seen(self, env, listed));
    CleanedByShrinks(self, env, rows, listed, app.id);
    kept, made := OccIds(cleaned, app.id), {};
    if out == rows {
      kept := OccIds(rows, app.id);
    } else if seen < app.desired && out == Place(app, env, cleaned, 0, app.desired - seen).rows {
      made := OccIds(out, app.id) - kept;
      PlaceFacts(app, env, cleaned, 0, app.desired - seen);
      PlacedOccupants(app, env, cleaned, out, app.desired - seen);
      SeenCount(self, env, listed);
      KeptOfShown(kept, Shown(listed), Sick(self, env, listed));
    } else if out != cleaned {
      var ids :| out == Drained(env, cleaned, ids);
      DrainedShrinks(env, cleaned, ids, app.id);
    }
  }

  lemma PlacedOccupants(app: App, env: Env, cleaned: Rows, placed: Rows, shortfall: nat)
    requires OnlyPlaces(app, env, cleaned, placed) && |OccIds(placed, app.id)| <= |OccIds(cleaned, app.id)| + shortfall
    ensures |OccIds(placed, app.id) - OccIds(cleaned, app.id)| <= shortfall
  {
    assert OccIds(cleaned, app.id) <= OccIds(placed, app.id);
    SubsetSize(OccIds(cleaned, app.id), OccIds(placed, app.id));
  }

  lemma KeptOfShown(kept: set<Id>, shown: set<Id>, sick: set<Id>)
    requires kept !! sick && sick <= shown
    ensures |kept * shown| <= |shown| - |sick|
  {
    assert kept * shown <= shown - sick;
    SubsetSize(kept * shown, shown - sick);
    SubsetSize(sick, shown);
  }

  lemma DrainedShrinks(env: Env, rows: Rows, ids: seq<Id>, a: Id)
    requires WellKeyed(rows)
    ensures WellKeyed(Drained(env, rows, ids)) && OccIds(Drained(env, rows, ids), a) <= OccIds(rows, a)
  {}
}
