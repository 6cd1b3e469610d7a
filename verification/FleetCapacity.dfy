/** What a reconcile pass promises: capacity, host fence, affinity, held placement, ordered
    drain, and convergence of repeated rounds. */
module FleetCapacity {
  import opened Text
  import opened FleetTypes
  import opened SurplusOrder
  import opened FleetPass
  import opened FleetPassFacts

  function Max(a: int, b: int): int { if a > b then a else b }

  ghost predicate Ready(app: App, rows: Rows, listed: seq<Replica>) {
    WellKeyed(rows) && Lists(rows, app.id, listed)
  }

  predicate GivesUp(env: Env) { env.volumes && env.affinityFirst.Pinned? && env.affinityDown }

  ghost function Seen(self: Id, env: Env, listed: seq<Replica>): nat {
    |Occupants(LocalCopies(self, env, listed))|
  }

  // ---------------------------------------------------------------- counting lemmas per branch

  lemma CleanedCount(self: Id, app: App, env: Env, rows: Rows, listed: seq<Replica>)
    requires Ready(app, rows, listed)
    ensures var cleaned := Cleaned(self, app.id, env, rows);
            && WellKeyed(cleaned)
            && |OccIds(cleaned, app.id)| == Seen(self, env, listed) + |UnsavedSet(self, app.id, env, rows)|
            && |OccIds(cleaned, app.id)| <= |OccIds(rows, app.id)|
  {
    assert WellKeyed(Cleaned(self, app.id, env, rows));
    hide Cleaned;
    hide LocalCopies;
    hide Occupants;
    hide Lists;
    CleanedOccupants(self, app.id, env, rows);
    OccupantsCount(self, app.id, env, rows, listed);
    SubsetSize(SickSet(self, app.id, env, rows), OccIds(rows, app.id));
  }

  lemma DrainCount(self: Id, app: App, env: Env, rows: Rows, listed: seq<Replica>)
    requires Ready(app, rows, listed) && Seen(self, env, listed) > app.desired
    ensures var occupants := Occupants(LocalCopies(self, env, listed));
            var drain := DrainList(self, occupants, app.desired);
            var cleaned := Cleaned(self, app.id, env, rows);
            var after := Drained(env, cleaned, drain);
            && DistinctSeq(drain)
            && (forall id :: id in drain ==> id in rows && rows[id].app == app.id && Owns(self, rows[id]) && id in cleaned)
            && |OccIds(cleaned, app.id)| - |drain| <= |OccIds(after, app.id)| <= |OccIds(cleaned, app.id)|
            && (env.stuck == {} ==> |OccIds(after, app.id)| == |OccIds(cleaned, app.id)| - |drain|)
  {
    var occupants := Occupants(LocalCopies(self, env, listed));
    OccupantsCount(self, app.id, env, rows, listed);
    DrainListFacts(self, occupants, app.desired);
    CleanedOccupants(self, app.id, env, rows);
    var drain := DrainList(self, occupants, app.desired);
    forall id | id in drain
      ensures id in rows && rows[id].app == app.id && Owns(self, rows[id])
      ensures id in OccIds(Cleaned(self, app.id, env, rows), app.id)
    {
      var r :| r in occupants && Owns(self, r) && r.id == id;
    }
    DrainedOccupants(env, Cleaned(self, app.id, env, rows), app.id, drain);
  }

  // ---------------------------------------------------------------- capacity

  /** Whatever the scheduler, the probes and the teardowns answer, a pass leaves at most as many
      occupying rows as there were, or as desired plus the deaths it could not record. */
  lemma CapacityBound(self: Id, app: App, env: Env, rows: Rows, listed: seq<Replica>)
    requires Ready(app, rows, listed)
    ensures var out := Pass(self, app, env, rows, listed);
            && WellKeyed(out.rows)
            && |OccIds(out.rows, app.id)|
               <= Max(|OccIds(rows, app.id)|, app.desired + |UnsavedSet(self, app.id, env, rows)|)
  {
    hide Cleaned;
    hide DrainList;
    hide LocalCopies;
    hide OccIds;
    hide UnsavedSet;
    CleanedCount(self, app, env, rows, listed);
    var seen := Seen(self, env, listed);
    if seen < app.desired {
      PlaceFacts(app, env, Cleaned(self, app.id, env, rows), 0, app.desired - seen);
    } else if seen > app.desired {
      DrainCount(self, app, env, rows, listed);
    }
  }

  /** When everything else cooperates, the count rises above the larger of its earlier value and
      the desired one if and only if some death went unrecorded and the unrecorded deaths reach
      past the earlier count. So with every death recorded capacity is never exceeded. */
  lemma CapacityExceededIff(self: Id, app: App, env: Env, rows: Rows, listed: seq<Replica>)
    requires Ready(app, rows, listed) && Cooperative(app, env, rows)
    ensures var lost := |UnsavedSet(self, app.id, env, rows)|;
            |OccIds(Pass(self, app, env, rows, listed).rows, app.id)| > Max(|OccIds(rows, app.id)|, app.desired)
            <==> lost > 0 && |OccIds(rows, app.id)| < app.desired + lost
  {
    hide Cleaned;
    hide DrainList;
    hide LocalCopies;
    hide OccIds;
    hide UnsavedSet;
    hide SickSet;
    hide CleanupActions;
    hide Occupants;
    hide Drained;
    hide FirstFailed;
    hide Lists;
    hide Place;
    hide WellKeyed;
    CleanedCount(self, app, env, rows, listed);
    OccupantsCount(self, app.id, env, rows, listed);
    var seen := Seen(self, env, listed);
    var cleaned := Cleaned(self, app.id, env, rows);
    assert cleaned.Keys <= rows.Keys;
    NothingFails(env, CleanupActions(self, env, listed));
    if seen < app.desired {
      PlaceAll(app, env, cleaned, 0, app.desired - seen);
    } else if seen > app.desired {
      DrainCount(self, app, env, rows, listed);
    }
  }

  lemma {:induction false} NothingFails(env: Env, actions: seq<Action>)
    requires env.stuck == {}
    ensures FirstFailed(env, actions).None?
  {
    if actions != [] {
      NothingFails(env, actions[1..]);
    }
  }

  /** A concrete excess: one resident whose death could not be recorded, and a replacement. */
  lemma UnrecordedDeathDoublesTheApp() returns (app: App, env: Env, rows: Rows, listed: seq<Replica>)
    ensures Ready(app, rows, listed) && app.desired == 1 && |OccIds(rows, app.id)| == 1
    ensures |OccIds(Pass(1, app, env, rows, listed).rows, app.id)| == 2
  {
    app := App(10, 1);
    var r := Replica(20, 10, Some(1), Resident, 0);
    rows := map[20 := r];
    listed := [r];
    env := Env({}, map[20 := Unsaved], false, Unpinned, false, true, Unpinned, [Host(1)], [21], {}, 0);
    assert OccIds(rows, 10) == {20} && UnsavedSet(1, 10, env, rows) == {20};
    CapacityExceededIff(1, app, env, rows, listed);
    CapacityBound(1, app, env, rows, listed);
  }

  // ---------------------------------------------------------------- fence, affinity, hold

  lemma {:induction false} CleanupTouchesOwnRows(self: Id, env: Env, listed: seq<Replica>)
    ensures forall a :: a in CleanupActions(self, env, listed) ==>
              !a.Create? && exists r :: r in listed && r.id == a.id && Owns(self, r)
  {
    DeadTouchesOwnRows(self, listed);
    ProbeTouchesOwnRows(self, env, listed);
  }

  lemma {:induction false} DeadTouchesOwnRows(self: Id, listed: seq<Replica>)
    ensures forall a :: a in DeadActions(self, listed) ==>
              !a.Create? && exists r :: r in listed && r.id == a.id && Owns(self, r)
  {
    if listed != [] {
      DeadTouchesOwnRows(self, listed[1..]);
      assert listed[0] in listed;
    }
  }

  lemma {:induction false} ProbeTouchesOwnRows(self: Id, env: Env, listed: seq<Replica>)
    ensures forall a :: a in ProbeActions(self, env, listed) ==>
              !a.Create? && exists r :: r in listed && r.id == a.id && Owns(self, r)
  {
    if listed != [] {
      ProbeTouchesOwnRows(self, env, listed[1..]);
      assert listed[0] in listed;
    }
  }

  lemma {:induction false} PlaceOnlyCreates(app: App, env: Env, rows: Rows, n: nat, shortfall: nat)
    requires n <= shortfall
    ensures forall a :: a in Place(app, env, rows, n, shortfall).actions ==> a.Create?
    decreases shortfall - n
  {
    if n < shortfall && n < |env.picks| && n < |env.freshIds| && env.picks[n].Host? && env.freshIds[n] !in rows {
      PlaceOnlyCreates(app, env, rows[env.freshIds[n] := NewRow(app, env, n, env.picks[n].host)], n + 1, shortfall);
    }
  }

  lemma CleanedKeepsForeign(self: Id, app: App, env: Env, rows: Rows)
    ensures var cleaned := Cleaned(self, app.id, env, rows);
            forall id :: id in rows && (rows[id].app != app.id || !Owns(self, rows[id])) ==>
              id in cleaned && cleaned[id] == rows[id]
  {}

  lemma StopsAreListed(ids: seq<Id>)
    ensures forall a :: a in StopActions(ids) ==> a.Stop? && a.id in ids
  {
    forall a | a in StopActions(ids) ensures a.Stop? && a.id in ids {
      var i :| 0 <= i < |ids| && StopActions(ids)[i] == a;
    }
  }

  lemma ListedOwnRows(self: Id, app: App, env: Env, rows: Rows, listed: seq<Replica>)
    requires Ready(app, rows, listed)
    ensures forall a :: a in CleanupActions(self, env, listed) ==>
              !a.Create? && a.id in rows && rows[a.id].app == app.id && Owns(self, rows[a.id])
  {
    CleanupTouchesOwnRows(self, env, listed);
    forall a | a in CleanupActions(self, env, listed)
      ensures a.id in rows && rows[a.id].app == app.id && Owns(self, rows[a.id])
    {
      var r :| r in listed && r.id == a.id && Owns(self, r);
    }
  }

  /** A pass probes and tears down rows of its app that are stamped with its own host, and no
      other; rows of other hosts, unstamped rows and other apps' rows come out unchanged. */
  lemma HostFence(self: Id, app: App, env: Env, rows: Rows, listed: seq<Replica>)
    requires Ready(app, rows, listed)
    ensures var out := Pass(self, app, env, rows, listed);
            && (forall a :: a in out.actions && !a.Create? ==>
                  a.id in rows && rows[a.id].app == app.id && rows[a.id].host == Some(self))
            && (forall id :: id in rows && (rows[id].app != app.id || rows[id].host != Some(self)) ==>
                  id in out.rows && out.rows[id] == rows[id])
  {
    hide Cleaned;
    hide DrainList;
    hide LocalCopies;
    hide OccIds;
    hide CleanupActions;
    ListedOwnRows(self, app, env, rows, listed);
    CleanedKeepsForeign(self, app, env, rows);
    CleanedCount(self, app, env, rows, listed);
    var seen := Seen(self, env, listed);
    if seen < app.desired {
      PlaceFacts(app, env, Cleaned(self, app.id, env, rows), 0, app.desired - seen);
      PlaceOnlyCreates(app, env, Cleaned(self, app.id, env, rows), 0, app.desired - seen);
    } else if seen > app.desired {
      DrainCount(self, app, env, rows, listed);
      StopsAreListed(DrainList(self, Occupants(LocalCopies(self, env, listed)), app.desired));
    }
  }

  /** Every row a pass creates is a scheduled row of the app, stamped with a host the scheduler
      answered, and with the affinity host whenever the app's volumes agree on one. */
  lemma CreatedRowsFollowAffinity(self: Id, app: App, env: Env, rows: Rows, listed: seq<Replica>, id: Id)
    requires Ready(app, rows, listed)
    requires id in Pass(self, app, env, rows, listed).rows && id !in rows
    ensures var r := Pass(self, app, env, rows, listed).rows[id];
            && r.app == app.id && r.state == Scheduled && PickedFor(env, r)
            && (env.volumes && env.affinity.Pinned? ==> r.host == Some(env.affinity.host))
  {
    hide LocalCopies;
    hide DrainList;
    hide Cleaned;
    hide CleanupActions;
    hide OccIds;
    CleanedCount(self, app, env, rows, listed);
    assert Cleaned(self, app.id, env, rows).Keys <= rows.Keys;
    var seen := Seen(self, env, listed);
    if seen < app.desired {
      PlaceFacts(app, env, Cleaned(self, app.id, env, rows), 0, app.desired - seen);
    }
  }

  lemma {:induction false} FirstFailedAppend(env: Env, a: seq<Action>, b: seq<Action>)
    ensures FirstFailed(env, a + b) == if FirstFailed(env, a).Some? then FirstFailed(env, a) else FirstFailed(env, b)
  {
    if a == [] {
      assert a + b == b;
    } else {
      FirstFailedAppend(env, a[1..], b);
      assert (a + b)[1..] == a[1..] + b;
    }
  }

  lemma {:induction false} CreatesNeverFail(env: Env, actions: seq<Action>)
    requires forall a :: a in actions ==> a.Create?
    ensures FirstFailed(env, actions).None?
  {
    if actions != [] {
      assert actions[0] in actions;
      CreatesNeverFail(env, actions[1..]);
    }
  }

  /** A pass in which some attempted teardown failed creates no row and reports the first such
      failure, whichever branch it went on to take. */
  lemma FailedTeardownHoldsPlacement(self: Id, app: App, env: Env, rows: Rows, listed: seq<Replica>)
    requires Ready(app, rows, listed)
    ensures var out := Pass(self, app, env, rows, listed);
            FirstFailed(env, out.actions).Some? ==>
              && out.rows.Keys <= rows.Keys
              && out.error == FirstFailed(env, out.actions)
              && (forall a :: a in out.actions ==> !a.Create?)
  {
    hide LocalCopies;
    hide DrainList;
    CleanupTouchesOwnRows(self, env, listed);
    var actions := CleanupActions(self, env, listed);
    var seen := Seen(self, env, listed);
    if seen < app.desired {
      var cleaned := Cleaned(self, app.id, env, rows);
      var placed := Place(app, env, cleaned, 0, app.desired - seen);
      PlaceOnlyCreates(app, env, cleaned, 0, app.desired - seen);
      CreatesNeverFail(env, placed.actions);
      FirstFailedAppend(env, actions, placed.actions);
    } else if seen > app.desired {
      var drain := DrainList(self, Occupants(LocalCopies(self, env, listed)), app.desired);
      StopsAreListed(drain);
    }
  }

  /** A failed cleanup teardown does not stop the drain: with a surplus, the pass goes on to
      attempt exactly min(seen - desired, local) of this host's rows in drain order, and never
      takes the count below desired. */
  lemma SurplusDrain(self: Id, app: App, env: Env, rows: Rows, listed: seq<Replica>)
    requires Ready(app, rows, listed) && !GivesUp(env) && Seen(self, env, listed) > app.desired
    ensures var occupants := Occupants(LocalCopies(self, env, listed));
            var drain := DrainList(self, occupants, app.desired);
            var out := Pass(self, app, env, rows, listed);
            && out.actions == CleanupActions(self, env, listed) + StopActions(drain)
            && |drain| == (if |occupants| - app.desired < |Local(self, occupants)| then |occupants| - app.desired else |Local(self, occupants)|)
            && DistinctSeq(drain)
            && (forall r, kept :: (r in occupants && kept in occupants && kept.host == Some(self)
                                   && r.id in drain && kept.id !in drain) ==>
                  && (r.state == Resident ==> kept.state == Resident)
                  && ((r.state == Resident <==> kept.state == Resident) ==> kept.createdAt <= r.createdAt))
            && |OccIds(out.rows, app.id)| >= app.desired
            && (forall id :: id in drain && id !in env.stuck ==> id !in out.rows)
  {
    hide LocalCopies;
    hide DrainList;
    hide OccIds;
    hide Cleaned;
    hide CleanupActions;
    hide DrainsBefore;
    hide Occupants;
    hide Lists;
    hide SickSet;
    hide UnsavedSet;
    hide WellKeyed;
    hide GoesFirst;
    hide Local;
    hide Drained;
    hide SeenIds;
    var occupants := Occupants(LocalCopies(self, env, listed));
    OccupantsCount(self, app.id, env, rows, listed);
    DrainListFacts(self, occupants, app.desired);
    CleanedCount(self, app, env, rows, listed);
    DrainCount(self, app, env, rows, listed);
    DrainedAreGone(env, Cleaned(self, app.id, env, rows), DrainList(self, occupants, app.desired));
    forall r, kept | GoesFirst(r, kept) && r in occupants && kept in occupants
      ensures r.state == Resident ==> kept.state == Resident
      ensures (r.state == Resident <==> kept.state == Resident) ==> kept.createdAt <= r.createdAt
    {
      OccupantOrder(LocalCopies(self, env, listed), r, kept);
    }
  }

  lemma OccupantOrder(copies: seq<Replica>, r: Replica, kept: Replica)
    requires GoesFirst(r, kept) && r in Occupants(copies) && kept in Occupants(copies)
    ensures r.state == Resident ==> kept.state == Resident
    ensures (r.state == Resident <==> kept.state == Resident) ==> kept.createdAt <= r.createdAt
  {}

  lemma DrainedAreGone(env: Env, rows: Rows, ids: seq<Id>)
    ensures forall id :: id in ids && id !in env.stuck ==> id !in Drained(env, rows, ids)
  {}
}
