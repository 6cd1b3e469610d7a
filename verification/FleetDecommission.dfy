/** DecommissionApp: when an app's backing files, routes and row may go
    (internal/usecase/fleet_orchestrator.go:1329-1448). */
module FleetDecommission {
  import opened Text
  import opened FleetTypes
  import opened SurplusOrder
  import opened FleetPass
  import opened FleetPassFacts
  import opened FleetCapacity
  import opened FleetConvergence

  /** What the resource ledger answers about live claims on the app. */
  datatype Ledger = Unwired | Unreadable | NoClaim | LiveClaim

  datatype TeardownEnv = TeardownEnv(
    loads: bool, ledger: Ledger, updates: bool, pass: Env, relists: bool,
    volumesDeleted: bool, routeStore: bool, routesDeleted: bool, rowDeleted: bool)

  /** The replica table, the apps with their desired counts, and which apps still have backing
      files and routes. */
  datatype Control = Control(rows: Rows, desired: map<Id, nat>, volumes: set<Id>, routes: set<Id>)

  datatype Verdict =
    | NotAnApp | LoadFailed | ResourceBacked | LedgerFailed | UpdateFailed | RelistFailed
    | LocalSurvivor(cause: Option<PassError>) | DrainFailed(why: PassError) | ForeignSurvivor
    | VolumesFailed | RoutesFailed | RowFailed | Done

  function RowsOf(rows: Rows, app: Id): set<Id> {
    set id | id in rows && rows[id].app == app
  }

  function LocalRowsOf(self: Id, rows: Rows, app: Id): set<Id> {
    set id | id in rows && rows[id].app == app && Owns(self, rows[id])
  }

  /** refuseIfResourceBacked: only a positive "no claim" lets the teardown through. */
  function LedgerRefusal(l: Ledger): Option<Verdict> {
    match l
    case NoClaim => None
    case Unreadable => Some(LedgerFailed)
    case _ => Some(ResourceBacked)
  }

  function Finalize(app: Id, d: TeardownEnv, c: Control): (Control, Verdict) {
    if d.pass.volumes && !d.volumesDeleted then (c, VolumesFailed)
    else
      var c1 := if d.pass.volumes then c.(volumes := c.volumes - {app}) else c;
      if d.routeStore && !d.routesDeleted then (c1, RoutesFailed)
      else
        var c2 := if d.routeStore then c1.(routes := c1.routes - {app}) else c1;
        if !d.rowDeleted then (c2, RowFailed) else (c2.(desired := c2.desired - {app}), Done)
  }

  function AfterDrain(self: Id, app: Id, d: TeardownEnv, c: Control, error: Option<PassError>): (Control, Verdict) {
    if !d.relists then (c, RelistFailed)
    else if LocalRowsOf(self, c.rows, app) != {} then (c, LocalSurvivor(error))
    else if error.Some? then (c, DrainFailed(error.value))
    else if RowsOf(c.rows, app) != {} then (c, ForeignSurvivor)
    else Finalize(app, d, c)
  }

  function Decommission(self: Id, app: Id, d: TeardownEnv, c: Control, listed: seq<Replica>): (Control, Verdict) {
    if !d.loads then (c, LoadFailed)
    else if app !in c.desired then (c, NotAnApp)
    else if LedgerRefusal(d.ledger).Some? then (c, LedgerRefusal(d.ledger).value)
    else if !d.updates then (c, UpdateFailed)
    else
      var scaled := c.(desired := c.desired[app := 0]);
      var out := Pass(self, App(app, scaled.desired[app]), d.pass, scaled.rows, listed);
      AfterDrain(self, app, d, scaled.(rows := out.rows), out.error)
  }

  ghost predicate Destroys(app: Id, c: Control, c': Control) {
    c'.volumes != c.volumes || c'.routes != c.routes || (app in c.desired && app !in c'.desired)
  }

  ghost predicate SafeToDestroy(self: Id, app: Id, d: TeardownEnv, c: Control, listed: seq<Replica>) {
    var out := Pass(self, App(app, 0), d.pass, c.rows, listed);
    && d.loads && app in c.desired && d.updates && d.relists
    && d.ledger == NoClaim && out.error.None? && RowsOf(out.rows, app) == {}
  }

  /** Backing files, routes and the app row go only when the ledger positively shows no claim, the
      drain reported no error and the re-listed replica set is empty; the app row goes last, and
      other apps lose nothing. Any earlier refusal keeps all three. */
  lemma DestroysOnlyWhenSafe(self: Id, app: Id, d: TeardownEnv, c: Control, listed: seq<Replica>)
    ensures var (c', v) := Decommission(self, app, d, c, listed);
            && (Destroys(app, c, c') ==> SafeToDestroy(self, app, d, c, listed))
            && (v.Done? <==>
                  (&& SafeToDestroy(self, app, d, c, listed)
                   && (d.pass.volumes ==> d.volumesDeleted) && (d.routeStore ==> d.routesDeleted) && d.rowDeleted))
            && (v.Done? ==> app !in c'.desired && (d.pass.volumes ==> app !in c'.volumes) && (d.routeStore ==> app !in c'.routes))
            && (app in c.desired && app !in c'.desired ==> v.Done?)
            && (d.ledger != NoClaim ==> c' == c)
            && (forall other :: other != app ==>
                  && (other in c'.volumes <==> other in c.volumes) && (other in c'.routes <==> other in c.routes)
                  && (other in c'.desired <==> other in c.desired)
                  && (other in c.desired ==> c'.desired[other] == c.desired[other]))
  {
    hide Pass;
    assert RowsOf(Pass(self, App(app, 0), d.pass, c.rows, listed).rows, app) == {} ==>
             LocalRowsOf(self, Pass(self, App(app, 0), d.pass, c.rows, listed).rows, app) == {} by {
      LocalAmong(self, Pass(self, App(app, 0), d.pass, c.rows, listed).rows, app);
    }
  }

  /** The teardown gets as far as scaling the app to zero. */
  ghost predicate Proceeds(app: Id, d: TeardownEnv, c: Control) {
    d.loads && app in c.desired && d.ledger == NoClaim && d.updates
  }

  /** Past its first checks the teardown has scaled the app to zero and drained at that count, however it
      ends: only the app row's own deletion takes the count away again. A refusal before that leaves
      everything as it was. Which of the later refusals it is follows from the rows that are left. */
  lemma ScaledToZeroFirst(self: Id, app: Id, d: TeardownEnv, c: Control, listed: seq<Replica>)
    ensures var (c', v) := Decommission(self, app, d, c, listed);
            var out := Pass(self, App(app, 0), d.pass, c.rows, listed);
            && (!Proceeds(app, d, c) ==> c' == c)
            && (Proceeds(app, d, c) ==>
                && c'.rows == out.rows
                && (if v.Done? then app !in c'.desired else app in c'.desired && c'.desired[app] == 0)
                && (v.RelistFailed? <==> !d.relists)
                && (v.LocalSurvivor? <==>
                      d.relists && exists id :: id in out.rows && out.rows[id].app == app && out.rows[id].host == Some(self))
                && (v.LocalSurvivor? ==> v.cause == out.error)
                && (v.DrainFailed? ==> out.error == Some(v.why))
                && (v.ForeignSurvivor? ==>
                      out.error.None? && exists id :: id in out.rows && out.rows[id].app == app)
                && (v.ForeignSurvivor? ==>
                      forall id :: id in out.rows && out.rows[id].app == app ==> out.rows[id].host != Some(self)))
  {
    hide Pass;
    var out := Pass(self, App(app, 0), d.pass, c.rows, listed);
    SomeLocal(self, out.rows, app);
    SomeRow(out.rows, app);
  }

  lemma SomeLocal(self: Id, rows: Rows, app: Id)
    ensures LocalRowsOf(self, rows, app) != {} <==> exists id :: id in rows && rows[id].app == app && rows[id].host == Some(self)
  {
    if id :| id in rows && rows[id].app == app && rows[id].host == Some(self) {
      assert id in LocalRowsOf(self, rows, app);
    }
  }

  lemma SomeRow(rows: Rows, app: Id)
    ensures RowsOf(rows, app) != {} <==> exists id :: id in rows && rows[id].app == app
  {
    if id :| id in rows && rows[id].app == app {
      assert id in RowsOf(rows, app);
    }
  }

  /** The deletions in their order: files, then routes, then the app row; each failure leaves what comes
      after it. */
  lemma DeletionOrder(self: Id, app: Id, d: TeardownEnv, c: Control, listed: seq<Replica>)
    requires SafeToDestroy(self, app, d, c, listed)
    ensures var (c', v) := Decommission(self, app, d, c, listed);
            var files := if d.pass.volumes then c.volumes - {app} else c.volumes;
            var routes := if d.routeStore then c.routes - {app} else c.routes;
            if d.pass.volumes && !d.volumesDeleted then v == VolumesFailed && c'.volumes == c.volumes && c'.routes == c.routes
            else if d.routeStore && !d.routesDeleted then v == RoutesFailed && c'.volumes == files && c'.routes == c.routes
            else c'.volumes == files && c'.routes == routes && v == if d.rowDeleted then Done else RowFailed
  {
    hide Pass;
    LocalAmong(self, Pass(self, App(app, 0), d.pass, c.rows, listed).rows, app);
  }

  /** Why a teardown stops before it changes anything. */
  lemma EarlyRefusalExact(self: Id, app: Id, d: TeardownEnv, c: Control, listed: seq<Replica>)
    ensures var v := Decommission(self, app, d, c, listed).1;
            && (v == LoadFailed <==> !d.loads)
            && (v == NotAnApp <==> d.loads && app !in c.desired)
            && (v == LedgerFailed <==> d.loads && app in c.desired && d.ledger == Unreadable)
            && (v == ResourceBacked <==> d.loads && app in c.desired && (d.ledger == Unwired || d.ledger == LiveClaim))
            && (v == UpdateFailed <==> d.loads && app in c.desired && d.ledger == NoClaim && !d.updates)
  {
    hide Pass;
  }

  lemma LocalAmong(self: Id, rows: Rows, app: Id)
    ensures LocalRowsOf(self, rows, app) <= RowsOf(rows, app)
  {}

  // ---------------------------------------------------------------- the retry

  /** Rows no pass ever removes: they neither occupy capacity nor count as dead. */
  ghost function IdleSet(rows: Rows, app: Id): set<Id> {
    set id | id in rows && rows[id].app == app && (rows[id].state == Paused || rows[id].state == Draining)
  }

  lemma RowsByState(rows: Rows, app: Id)
    ensures RowsOf(rows, app) == OccIds(rows, app) + DeadSet(rows, app) + IdleSet(rows, app)
  {}

  lemma {:induction false} PlaceAddsNoIdle(app: App, env: Env, rows: Rows, n: nat, shortfall: nat)
    requires n <= shortfall && WellKeyed(rows)
    ensures IdleSet(Place(app, env, rows, n, shortfall).rows, app.id) == IdleSet(rows, app.id)
  {
    hide Place;
    PlaceFacts(app, env, rows, n, shortfall);
  }

  lemma CleanupKeepsIdle(self: Id, app: Id, env: Env, rows: Rows)
    requires WellKeyed(rows)
    ensures IdleSet(Cleaned(self, app, env, rows), app) == IdleSet(rows, app)
  {}

  lemma DrainKeepsIdle(self: Id, app: App, env: Env, rows: Rows, listed: seq<Replica>)
    requires Ready(app, rows, listed) && Seen(self, env, listed) > app.desired
    ensures var drain := DrainList(self, Occupants(LocalCopies(self, env, listed)), app.desired);
            IdleSet(Drained(env, Cleaned(self, app.id, env, rows), drain), app.id) == IdleSet(rows, app.id)
  {
    hide LocalCopies;
    hide DrainList;
    hide Cleaned;
    hide Lists;
    var occupants := Occupants(LocalCopies(self, env, listed));
    OccupantsCount(self, app.id, env, rows, listed);
    assert forall r :: r in occupants ==> r.id in rows && rows[r.id] == r && Occupies(r.state);
    hide SeenIds;
    hide Occupants;
    hide IdleSet;
    hide Drained;
    DrainListFacts(self, occupants, app.desired);
    CleanupKeepsIdle(self, app.id, env, rows);
    var drain := DrainList(self, occupants, app.desired);
    DrainSparesIdle(app.id, env, rows, Cleaned(self, app.id, env, rows), occupants, drain);
  }

  lemma DrainSparesIdle(app: Id, env: Env, rows: Rows, cleaned: Rows, occupants: seq<Replica>, drain: seq<Id>)
    requires forall r :: r in occupants ==> r.id in rows && rows[r.id] == r && Occupies(r.state)
    requires forall id :: id in drain ==> exists r :: r in occupants && r.id == id
    requires IdleSet(cleaned, app) == IdleSet(rows, app)
    ensures IdleSet(Drained(env, cleaned, drain), app) == IdleSet(rows, app)
  {
    forall id | id in IdleSet(cleaned, app) ensures id !in drain {
      assert id in IdleSet(rows, app);
    }
  }

  /** Whatever the runtime, scheduler and volume manager answer, no pass of any host adds or
      removes a paused or draining row. */
  lemma PassKeepsIdle(self: Id, app: App, env: Env, rows: Rows, listed: seq<Replica>)
    requires Ready(app, rows, listed)
    ensures IdleSet(Pass(self, app, env, rows, listed).rows, app.id) == IdleSet(rows, app.id)
  {
    hide Cleaned;
    hide LocalCopies;
    hide DrainList;
    hide CleanupActions;
    hide Place;
    hide Drained;
    hide IdleSet;
    CleanupKeepsIdle(self, app.id, env, rows);
    var seen := |Occupants(LocalCopies(self, env, listed))|;
    if seen < app.desired {
      CleanedKeyed(self, app.id, env, rows);
      PlaceAddsNoIdle(app, env, Cleaned(self, app.id, env, rows), 0, app.desired - seen);
    } else if seen > app.desired {
      DrainKeepsIdle(self, app, env, rows, listed);
    }
  }

  lemma CleanedKeyed(self: Id, app: Id, env: Env, rows: Rows)
    requires WellKeyed(rows)
    ensures WellKeyed(Cleaned(self, app, env, rows))
  {}

  lemma RoundStep(app: App, turns: seq<Turn>, states: seq<Rows>, k: nat)
    requires IsRound(app, turns, states) && k < |turns|
    ensures Ready(app, states[k], turns[k].listed)
    ensures states[k + 1] == Pass(turns[k].host, app, turns[k].env, states[k], turns[k].listed).rows
  {}

  lemma {:induction false} RoundKeepsIdle(app: App, turns: seq<Turn>, states: seq<Rows>, k: nat)
    requires IsRound(app, turns, states) && k <= |turns|
    ensures IdleSet(states[k], app.id) == IdleSet(states[0], app.id)
  {
    if k > 0 {
      hide Pass;
      hide IdleSet;
      RoundKeepsIdle(app, turns, states, k - 1);
      RoundStep(app, turns, states, k - 1);
      PassKeepsIdle(turns[k - 1].host, app, turns[k - 1].env, states[k - 1], turns[k - 1].listed);
    }
  }

  /** Once every owning host has taken a cooperative pass at desired zero, exactly the rows that
      were paused or draining at the start are left. */
  lemma OwnersDrainAllButIdle(app: Id, turns: seq<Turn>, states: seq<Rows>)
    requires IsRound(App(app, 0), turns, states) && turns != [] && Covered(App(app, 0), turns, states[0])
    ensures RowsOf(states[|turns|], app) == IdleSet(states[0], app)
  {
    assert |states| == |turns| + 1;
    hide IsRound;
    hide Covered;
    RoundConverges(App(app, 0), turns, states);
    RoundKeepsIdle(App(app, 0), turns, states, |turns|);
    RowsByState(states[|turns|], app);
  }

  lemma EmptyPass(self: Id, app: Id, env: Env, rows: Rows)
    requires WellKeyed(rows) && RowsOf(rows, app) == {}
    ensures Pass(self, App(app, 0), env, rows, []) == PassOut(rows, None, [])
  {
    assert forall id :: id in rows && rows[id].app == app ==> id in RowsOf(rows, app);
    assert Cleaned(self, app, env, rows) == rows;
    assert LocalCopies(self, env, []) == [];
  }

  lemma RowsSubset(rows: Rows, app: Id)
    ensures IdleSet(rows, app) <= RowsOf(rows, app)
  {}

  lemma NothingListed(rows: Rows, app: Id, listed: seq<Replica>)
    requires Lists(rows, app, listed) && RowsOf(rows, app) == {}
    ensures listed == []
  {
    assert |listed| > 0 ==> listed[0] in listed && listed[0].id in RowsOf(rows, app);
  }

  /** The count a pass finds stored for the app. */
  function Wanted(c: Control, app: Id): nat { if app in c.desired then c.desired[app] else 0 }

  /** The retry: a DecommissionApp that got past its checks and did not finish, then one cooperative round
      of the owning hosts at the count it stored, then a DecommissionApp from any host with the ledger
      clear and the stores working. This one removes files, routes and the app row if and only if no row
      of the app was paused or draining at the start. */
  lemma RetryFinishesIff(first: Id, d0: TeardownEnv, c0: Control, listed0: seq<Replica>, app: Id, turns: seq<Turn>,
                         states: seq<Rows>, self: Id, d: TeardownEnv, listed: seq<Replica>)
    requires WellKeyed(c0.rows) && Lists(c0.rows, app, listed0) && Proceeds(app, d0, c0)
    requires !Decommission(first, app, d0, c0, listed0).1.Done?
    requires var c1 := Decommission(first, app, d0, c0, listed0).0;
             && IsRound(App(app, Wanted(c1, app)), turns, states) && turns != [] && states[0] == c1.rows
             && Covered(App(app, Wanted(c1, app)), turns, states[0]) && Lists(states[|turns|], app, listed)
    requires d.loads && d.ledger == NoClaim && d.updates && d.relists
    requires d.volumesDeleted && d.routesDeleted && d.rowDeleted
    ensures var c2 := Decommission(first, app, d0, c0, listed0).0.(rows := states[|turns|]);
            var (c', v) := Decommission(self, app, d, c2, listed);
            && (v.Done? <==> IdleSet(c0.rows, app) == {})
            && (v.Done? ==> app !in c'.desired && (d.pass.volumes ==> app !in c'.volumes) && (d.routeStore ==> app !in c'.routes))
            && (!v.Done? ==> app in c'.desired && c'.volumes == c2.volumes && c'.routes == c2.routes)
  {
    hide Pass;
    hide Decommission;
    hide IsRound;
    hide Covered;
    hide IdleSet;
    hide Lists;
    ScaledToZeroFirst(first, app, d0, c0, listed0);
    PassKeepsIdle(first, App(app, 0), d0.pass, c0.rows, listed0);
    CapacityBound(first, App(app, 0), d0.pass, c0.rows, listed0);
    var c1 := Decommission(first, app, d0, c0, listed0).0;
    RoundKeyed(App(app, 0), turns, states);
    DrainedTeardownIff(self, app, d, c1.(rows := states[|turns|]), turns, states, listed);
  }

  lemma RoundKeyed(app: App, turns: seq<Turn>, states: seq<Rows>)
    requires IsRound(app, turns, states) && turns != []
    ensures |states| == |turns| + 1 && WellKeyed(states[|turns|])
  {
    hide Pass;
    var n := |turns| - 1;
    RoundStep(app, turns, states, n);
    CapacityBound(turns[n].host, app, turns[n].env, states[n], turns[n].listed);
  }

  lemma DrainedTeardownIff(self: Id, app: Id, d: TeardownEnv, c: Control, turns: seq<Turn>, states: seq<Rows>, listed: seq<Replica>)
    requires IsRound(App(app, 0), turns, states) && turns != [] && Covered(App(app, 0), turns, states[0])
    requires c.rows == states[|turns|] && WellKeyed(c.rows) && Lists(c.rows, app, listed) && app in c.desired
    requires d.loads && d.ledger == NoClaim && d.updates && d.relists
    requires d.volumesDeleted && d.routesDeleted && d.rowDeleted
    ensures var (c', v) := Decommission(self, app, d, c, listed);
            && (v.Done? <==> IdleSet(states[0], app) == {})
            && (v.Done? ==> app !in c'.desired && (d.pass.volumes ==> app !in c'.volumes) && (d.routeStore ==> app !in c'.routes))
            && (!v.Done? ==> app in c'.desired && c'.volumes == c.volumes && c'.routes == c.routes)
  {
    assert |states| == |turns| + 1;
    hide IsRound;
    hide Covered;
    hide Pass;
    hide Decommission;
    hide WellKeyed;
    hide RowsOf;
    hide IdleSet;
    OwnersDrainAllButIdle(app, turns, states);
    DestroysOnlyWhenSafe(self, app, d, c, listed);
    if IdleSet(states[0], app) == {} {
      NothingListed(c.rows, app, listed);
      EmptyPass(self, app, d.pass, c.rows);
    } else {
      PassKeepsIdle(self, App(app, 0), d.pass, c.rows, listed);
      RoundKeepsIdle(App(app, 0), turns, states, |turns|);
      RowsSubset(Pass(self, App(app, 0), d.pass, c.rows, listed).rows, app);
    }
  }

  // ---------------------------------------------------------------- idle rows block every retry

  /** What may be tried while an idle row exists: teardowns from any host and passes of any host, with the
      outside answering as it likes. */
  datatype Attempt =
    | Teardown(self: Id, d: TeardownEnv, listed: seq<Replica>)
    | APass(self: Id, count: nat, env: Env, listed: seq<Replica>)

  function Tried(app: Id, c: Control, t: Attempt): Control {
    match t
    case Teardown(self, d, listed) => Decommission(self, app, d, c, listed).0
    case APass(self, count, env, listed) => c.(rows := Pass(self, App(app, count), env, c.rows, listed).rows)
  }

  ghost predicate Attempts(app: Id, states: seq<Control>, tries: seq<Attempt>) {
    && |states| == |tries| + 1
    && forall i :: 0 <= i < |tries| ==>
         && Lists(states[i].rows, app, tries[i].listed) && states[i + 1] == Tried(app, states[i], tries[i])
  }

  ghost predicate Blocked(app: Id, c: Control, c': Control) {
    && WellKeyed(c'.rows) && IdleSet(c'.rows, app) == IdleSet(c.rows, app)
    && c'.volumes == c.volumes && c'.routes == c.routes && (app in c.desired ==> app in c'.desired)
  }

  lemma IdleBlocksTeardown(self: Id, app: Id, d: TeardownEnv, c: Control, listed: seq<Replica>)
    requires WellKeyed(c.rows) && Lists(c.rows, app, listed) && IdleSet(c.rows, app) != {}
    ensures var (c', v) := Decommission(self, app, d, c, listed); !v.Done? && Blocked(app, c, c')
  {
    hide Pass;
    hide IdleSet;
    hide Lists;
    hide WellKeyed;
    hide RowsOf;
    var out := Pass(self, App(app, 0), d.pass, c.rows, listed).rows;
    PassKeepsIdle(self, App(app, 0), d.pass, c.rows, listed) by { ReadyIs(App(app, 0), c.rows, listed); }
    CapacityBound(self, App(app, 0), d.pass, c.rows, listed) by { ReadyIs(App(app, 0), c.rows, listed); }
    RowsSubset(out, app);
    DestroysOnlyWhenSafe(self, app, d, c, listed);
  }

  lemma ReadyIs(app: App, rows: Rows, listed: seq<Replica>)
    requires WellKeyed(rows) && Lists(rows, app.id, listed)
    ensures Ready(app, rows, listed)
  {}

  lemma PassIsBlocked(self: Id, app: App, env: Env, c: Control, listed: seq<Replica>)
    requires WellKeyed(c.rows) && Lists(c.rows, app.id, listed)
    ensures Blocked(app.id, c, c.(rows := Pass(self, app, env, c.rows, listed).rows))
  {
    hide Pass;
    hide IdleSet;
    hide Lists;
    hide WellKeyed;
    ReadyIs(app, c.rows, listed);
    PassKeepsIdle(self, app, env, c.rows, listed);
    CapacityBound(self, app, env, c.rows, listed);
  }

  /** A paused or draining row blocks the teardown for good: over every sequence of retries and passes on
      any hosts, whatever fails or succeeds in them, no retry completes and backing files, routes and app
      row stay. */
  lemma {:induction false} IdleRowBlocksEveryRetry(app: Id, states: seq<Control>, tries: seq<Attempt>, k: nat)
    requires Attempts(app, states, tries) && k < |states|
    requires WellKeyed(states[0].rows) && IdleSet(states[0].rows, app) != {}
    ensures Blocked(app, states[0], states[k])
    ensures k < |tries| && tries[k].Teardown? ==>
              !Decommission(tries[k].self, app, tries[k].d, states[k], tries[k].listed).1.Done?
  {
    hide Pass;
    hide IdleSet;
    hide Decommission;
    hide Lists;
    if k > 0 {
      IdleRowBlocksEveryRetry(app, states, tries, k - 1);
      var (c, t) := (states[k - 1], tries[k - 1]);
      assert Lists(c.rows, app, t.listed) && states[k] == Tried(app, c, t);
      match t
      case Teardown(self, d, listed) => IdleBlocksTeardown(self, app, d, c, listed);
      case APass(self, count, env, listed) => PassIsBlocked(self, App(app, count), env, c, listed);
    }
    if k < |tries| && tries[k].Teardown? {
      IdleBlocksTeardown(tries[k].self, app, tries[k].d, states[k], tries[k].listed);
    }
  }

  /** So with one paused row the app can never be torn down. */
  lemma PausedRowBlocksTeardown(app: Id, states: seq<Control>, tries: seq<Attempt>, id: Id)
    requires Attempts(app, states, tries) && WellKeyed(states[0].rows)
    requires id in states[0].rows && states[0].rows[id].app == app && states[0].rows[id].state == Paused
    ensures forall k :: 0 <= k < |tries| && tries[k].Teardown? ==>
              !Decommission(tries[k].self, app, tries[k].d, states[k], tries[k].listed).1.Done?
    ensures var last := states[|tries|];
            last.volumes == states[0].volumes && last.routes == states[0].routes && (app in states[0].desired ==> app in last.desired)
  {
    hide Decommission;
    AttemptsLength(app, states, tries);
    hide Attempts;
    assert id in IdleSet(states[0].rows, app);
    hide IdleSet;
    forall k | 0 <= k < |tries| && tries[k].Teardown?
      ensures !Decommission(tries[k].self, app, tries[k].d, states[k], tries[k].listed).1.Done?
    {
      IdleRowBlocksEveryRetry(app, states, tries, k);
    }
    IdleRowBlocksEveryRetry(app, states, tries, |tries|);
  }

  lemma AttemptsLength(app: Id, states: seq<Control>, tries: seq<Attempt>)
    requires Attempts(app, states, tries)
    ensures |states| == |tries| + 1
  {}
}
