/** FleetOrchestrator as it runs on one host: the loops of ReconcileApp and the actuation pass,
    proved to compute the pass function (internal/usecase/fleet_orchestrator.go:559-821, 1036-1059). */
module FleetOrchestrator {
  import opened Text
  import opened FleetTypes
  import opened SurplusOrder
  import opened FleetPass
  import opened FleetPassFacts
  import opened FleetCapacity
  import opened FleetDecommission

  // ---------------------------------------------------------------- loop specifications

  function DeadStep(self: Id, env: Env, rows: Rows, r: Replica): Rows {
    if r.state == Dead && Owns(self, r) && r.id !in env.stuck then rows - {r.id} else rows
  }

  function HealthStep(self: Id, env: Env, rows: Rows, r: Replica): Rows {
    if !(Probed(self, r) && ProbeOf(env, r.id) == Unhealthy) then rows
    else if r.id in env.stuck then rows[r.id := r.(state := Dead)]
    else rows - {r.id}
  }

  function AfterDead(self: Id, env: Env, rows: Rows, listed: seq<Replica>, k: nat): Rows
    requires k <= |listed|
  {
    if k == 0 then rows else DeadStep(self, env, AfterDead(self, env, rows, listed, k - 1), listed[k - 1])
  }

  function AfterHealth(self: Id, env: Env, rows: Rows, listed: seq<Replica>, k: nat): Rows
    requires k <= |listed|
  {
    if k == 0 then rows else HealthStep(self, env, AfterHealth(self, env, rows, listed, k - 1), listed[k - 1])
  }

  lemma {:induction false} AfterDeadIs(self: Id, env: Env, rows: Rows, listed: seq<Replica>, k: nat)
    requires k <= |listed| && forall i, j :: 0 <= i < j < |listed| ==> listed[i].id != listed[j].id
    requires forall r :: r in listed ==> r.id in rows && rows[r.id] == r
    ensures var out := AfterDead(self, env, rows, listed, k);
            && (forall id :: id in out ==> id in rows && out[id] == rows[id])
            && (forall i :: k <= i < |listed| ==> listed[i].id in out)
            && (forall i :: 0 <= i < k ==>
                  (listed[i].id in out <==>
                   !(listed[i].state == Dead && Owns(self, listed[i]) && listed[i].id !in env.stuck)))
            && (forall id :: id in rows && rows[id] !in listed ==> id in out)
  {
    if k > 0 {
      AfterDeadIs(self, env, rows, listed, k - 1);
      assert forall i :: 0 <= i < |listed| ==> listed[i] in listed;
    }
  }

  ghost predicate HealthDone(self: Id, env: Env, rows: Rows, listed: seq<Replica>, out: Rows, k: nat)
    requires k <= |listed|
  {
    && (forall id :: id in out ==> id in rows)
    && (forall i :: k <= i < |listed| ==> (listed[i].id in out <==> listed[i].id in rows))
    && (forall i :: k <= i < |listed| && listed[i].id in out ==> out[listed[i].id] == rows[listed[i].id])
    && (forall i :: 0 <= i < k ==> HealthRow(self, env, rows, out, listed[i]))
    && (forall id :: id in rows && (forall i :: 0 <= i < |listed| ==> listed[i].id != id) ==> id in out && out[id] == rows[id])
  }

  ghost predicate HealthRow(self: Id, env: Env, rows: Rows, out: Rows, r: Replica) {
    if Probed(self, r) && ProbeOf(env, r.id) == Unhealthy then
      if r.id in env.stuck then r.id in out && out[r.id] == r.(state := Dead) else r.id !in out
    else (r.id in out <==> r.id in rows) && (r.id in out ==> out[r.id] == rows[r.id])
  }

  lemma HealthAdvances(self: Id, env: Env, rows: Rows, listed: seq<Replica>, out: Rows, k: nat)
    requires k < |listed| && DistinctIds(listed) && HealthDone(self, env, rows, listed, out, k)
    requires listed[k].state == Resident ==> listed[k].id in rows
    ensures HealthDone(self, env, rows, listed, HealthStep(self, env, out, listed[k]), k + 1)
  {
    hide HealthRow;
    hide HealthStep;
    hide Probed;
    var (r, out') := (listed[k], HealthStep(self, env, out, listed[k]));
    HealthStepFacts(self, env, rows, out, r);
    forall i | 0 <= i < k ensures HealthRow(self, env, rows, out', listed[i]) {
      assert listed[i].id != r.id;
      HealthRowElsewhere(self, env, rows, out, out', listed[i], r.id);
    }
  }

  /** One step of the health loop changes its own row only, and settles it. */
  lemma HealthStepFacts(self: Id, env: Env, rows: Rows, out: Rows, r: Replica)
    requires r.state == Resident ==> r.id in rows
    requires (r.id in out <==> r.id in rows) && (r.id in out ==> out[r.id] == rows[r.id])
    ensures var out' := HealthStep(self, env, out, r);
            && (forall id :: id != r.id ==> (id in out' <==> id in out) && (id in out ==> out'[id] == out[id]))
            && (r.id in out' ==> r.id in rows)
            && HealthRow(self, env, rows, out', r)
  {}

  lemma HealthRowElsewhere(self: Id, env: Env, rows: Rows, out: Rows, out': Rows, r: Replica, x: Id)
    requires HealthRow(self, env, rows, out, r) && r.id != x
    requires forall id :: id != x ==> (id in out' <==> id in out) && (id in out ==> out'[id] == out[id])
    ensures HealthRow(self, env, rows, out', r)
  {}

  lemma {:induction false} AfterHealthIs(self: Id, env: Env, rows: Rows, listed: seq<Replica>, k: nat)
    requires k <= |listed| && DistinctIds(listed)
    requires forall i :: 0 <= i < |listed| && listed[i].state == Resident ==> listed[i].id in rows
    ensures HealthDone(self, env, rows, listed, AfterHealth(self, env, rows, listed, k), k)
  {
    if k > 0 {
      hide HealthDone;
      hide HealthStep;
      AfterHealthIs(self, env, rows, listed, k - 1);
      HealthAdvances(self, env, rows, listed, AfterHealth(self, env, rows, listed, k - 1), k - 1);
    }
  }

  lemma CleanupOfRow(self: Id, app: Id, env: Env, rows: Rows, mid: Rows, out: Rows, id: Id)
    requires WellKeyed(rows) && id in rows && rows[id].app == app
    requires id in mid <==> !(rows[id].state == Dead && Owns(self, rows[id]) && id !in env.stuck)
    requires id in mid ==> mid[id] == rows[id]
    requires HealthRow(self, env, mid, out, rows[id])
    ensures var want := Cleaned(self, app, env, rows);
            (id in out <==> id in want) && (id in out ==> out[id] == want[id])
  {}

  lemma CleanupOfOther(self: Id, app: Id, env: Env, rows: Rows, id: Id)
    ensures var want := Cleaned(self, app, env, rows);
            && (id in rows && rows[id].app != app ==> id in want && want[id] == rows[id])
            && (id !in rows ==> id !in want)
  {}

  /** The two cleanup loops together do to the table what the pass function says. */
  lemma CleanupLoops(self: Id, app: Id, env: Env, rows: Rows, listed: seq<Replica>)
    requires WellKeyed(rows) && Lists(rows, app, listed)
    ensures AfterHealth(self, env, AfterDead(self, env, rows, listed, |listed|), listed, |listed|)
            == Cleaned(self, app, env, rows)
  {
    hide Cleaned;
    hide HealthRow;
    hide AfterDead;
    hide AfterHealth;
    var n := |listed|;
    var mid := AfterDead(self, env, rows, listed, n);
    AfterDeadIs(self, env, rows, listed, n);
    assert forall i :: 0 <= i < n ==> listed[i] in listed;
    AfterHealthIs(self, env, mid, listed, n);
    var out := AfterHealth(self, env, mid, listed, n);
    var want := Cleaned(self, app, env, rows);
    forall id ensures (id in out <==> id in want) && (id in out ==> out[id] == want[id]) {
      CleanupOfOther(self, app, env, rows, id);
      if id in rows && rows[id].app == app {
        assert rows[id] in listed;
        var i :| 0 <= i < n && listed[i] == rows[id];
        assert HealthRow(self, env, mid, out, listed[i]);
        CleanupOfRow(self, app, env, rows, mid, out, id);
      } else if id in rows {
        assert rows[id] !in listed;
      }
    }
    assert out == want;
  }

  // ---------------------------------------------------------------- a pass from its listing on

  /** The two cleanup loops over this listing, whatever the table now holds. */
  function CleanedBy(self: Id, env: Env, rows: Rows, listed: seq<Replica>): Rows {
    var n := |listed|;
    AfterHealth(self, env, AfterDead(self, env, rows, listed, n), listed, n)
  }

  function Finish(self: Id, app: App, env: Env, rows: Rows, listed: seq<Replica>): PassOut {
    if GivesUp(env) then PassOut(rows, None, [])
    else
      Adjust(self, app, env, CleanedBy(self, env, rows, listed),
             Occupants(LocalCopies(self, env, listed)), CleanupActions(self, env, listed))
  }

  /** On a listing that is still current this is the atomic pass. */
  lemma FreshFinishIsPass(self: Id, app: App, env: Env, rows: Rows, listed: seq<Replica>)
    requires Ready(app, rows, listed)
    ensures Finish(self, app, env, rows, listed) == Pass(self, app, env, rows, listed)
  {
    hide Cleaned;
    hide Adjust;
    hide LocalCopies;
    hide CleanupActions;
    hide Lists;
    CleanupLoops(self, app.id, env, rows, listed);
  }

  // ---------------------------------------------------------------- one more element

  lemma Advance<T>(s: seq<T>, i: nat)
    requires i < |s|
    ensures s[i..][0] == s[i] && s[i..][1..] == s[i + 1..] && s[i..] != []
  {}

  lemma Assoc<T>(a: seq<T>, b: seq<T>, c: seq<T>)
    ensures a + (b + c) == (a + b) + c
  {}

  lemma NoneLeft(self: Id, rs: seq<Replica>)
    ensures Occupants(rs[|rs|..]) == [] && Local(self, rs[|rs|..]) == []
  {}

  lemma NoActions(self: Id, env: Env, listed: seq<Replica>)
    ensures DeadActions(self, listed[|listed|..]) == [] && ProbeActions(self, env, listed[|listed|..]) == []
  {}

  function DeadHead(self: Id, r: Replica): seq<Action> {
    if r.state == Dead && Owns(self, r) then [Stop(r.id)] else []
  }

  lemma DeadActionsAdvance(self: Id, listed: seq<Replica>, i: nat, done: seq<Action>)
    requires i < |listed| && DeadActions(self, listed) == done + DeadActions(self, listed[i..])
    ensures DeadActions(self, listed) == (done + DeadHead(self, listed[i])) + DeadActions(self, listed[i + 1..])
  {
    hide DeadActions;
    hide DeadHead;
    Advance(listed, i);
    DeadActionsHead(self, listed[i..]);
    Assoc(done, DeadHead(self, listed[i]), DeadActions(self, listed[i + 1..]));
  }

  lemma DeadActionsHead(self: Id, s: seq<Replica>)
    requires s != []
    ensures DeadActions(self, s) == DeadHead(self, s[0]) + DeadActions(self, s[1..])
  {}

  function ProbeHead(self: Id, env: Env, r: Replica): seq<Action> {
    if !Probed(self, r) then []
    else if ProbeOf(env, r.id) == Unhealthy then [Check(r.id), Stop(r.id)]
    else [Check(r.id)]
  }

  lemma ProbeActionsAdvance(self: Id, env: Env, listed: seq<Replica>, i: nat, done: seq<Action>)
    requires i < |listed| && ProbeActions(self, env, listed) == done + ProbeActions(self, env, listed[i..])
    ensures ProbeActions(self, env, listed) == (done + ProbeHead(self, env, listed[i])) + ProbeActions(self, env, listed[i + 1..])
  {
    hide ProbeActions;
    hide ProbeHead;
    Advance(listed, i);
    ProbeActionsHead(self, env, listed[i..]);
    Assoc(done, ProbeHead(self, env, listed[i]), ProbeActions(self, env, listed[i + 1..]));
  }

  lemma ProbeActionsHead(self: Id, env: Env, s: seq<Replica>)
    requires s != []
    ensures ProbeActions(self, env, s) == ProbeHead(self, env, s[0]) + ProbeActions(self, env, s[1..])
  {}

  lemma OccupantsAdvance(copies: seq<Replica>, i: nat, done: seq<Replica>)
    requires i < |copies| && Occupants(copies) == done + Occupants(copies[i..])
    ensures Occupants(copies) == (done + if Occupies(copies[i].state) then [copies[i]] else []) + Occupants(copies[i + 1..])
  {
    Advance(copies, i);
    var head := if Occupies(copies[i].state) then [copies[i]] else [];
    assert Occupants(copies[i..]) == head + Occupants(copies[i + 1..]);
    Assoc(done, head, Occupants(copies[i + 1..]));
  }

  lemma LocalAdvance(self: Id, rs: seq<Replica>, i: nat, done: seq<Replica>)
    requires i < |rs| && Local(self, rs) == done + Local(self, rs[i..])
    ensures Local(self, rs) == (done + if Owns(self, rs[i]) then [rs[i]] else []) + Local(self, rs[i + 1..])
  {
    Advance(rs, i);
    var head := if Owns(self, rs[i]) then [rs[i]] else [];
    assert Local(self, rs[i..]) == head + Local(self, rs[i + 1..]);
    Assoc(done, head, Local(self, rs[i + 1..]));
  }

  lemma FirstFailedSnoc(env: Env, done: seq<Action>, a: Action)
    ensures FirstFailed(env, done + [a])
            == if FirstFailed(env, done).None? && a.Stop? && a.id in env.stuck then Some(TeardownFailed(a.id))
               else FirstFailed(env, done)
  {
    FirstFailedAppend(env, done, [a]);
    assert [a][1..] == [];
  }

  /** Scanning the listing answers the two questions the teardown asks of the table. */
  lemma ListedRows(self: Id, rows: Rows, app: Id, listed: seq<Replica>)
    requires Lists(rows, app, listed)
    ensures LocalRowsOf(self, rows, app) == {} <==> forall r :: r in listed ==> !Owns(self, r)
    ensures RowsOf(rows, app) == {} <==> |listed| == 0
  {
    if |listed| > 0 {
      assert listed[0] in listed && listed[0].id in RowsOf(rows, app);
    }
    forall r | r in listed && Owns(self, r) ensures LocalRowsOf(self, rows, app) != {} {
      assert r.id in LocalRowsOf(self, rows, app);
    }
    forall id | id in LocalRowsOf(self, rows, app) ensures rows[id] in listed && Owns(self, rows[id]) {}
  }

  lemma NothingDrained(env: Env, rows: Rows, ids: seq<Id>)
    requires ids == []
    ensures Drained(env, rows, ids) == rows
  {}

  /** One more teardown of the drain list. */
  lemma DrainAdvances(env: Env, rows: Rows, ids: seq<Id>, i: nat, earlier: seq<Action>)
    requires i < |ids|
    ensures StopActions(ids[..i + 1]) == StopActions(ids[..i]) + [Stop(ids[i])]
    ensures Drained(env, rows, ids[..i + 1])
            == if ids[i] in env.stuck then Drained(env, rows, ids[..i]) else Drained(env, rows, ids[..i]) - {ids[i]}
    ensures var before := FirstFailed(env, earlier + StopActions(ids[..i]));
            FirstFailed(env, earlier + StopActions(ids[..i + 1]))
            == if before.None? && ids[i] in env.stuck then Some(TeardownFailed(ids[i])) else before
  {
    assert ids[..i + 1] == ids[..i] + [ids[i]];
    assert earlier + StopActions(ids[..i + 1]) == earlier + StopActions(ids[..i]) + [Stop(ids[i])];
    FirstFailedSnoc(env, earlier + StopActions(ids[..i]), Stop(ids[i]));
  }

  // ---------------------------------------------------------------- the orchestrator

  datatype BootOutcome = NotStarted | Up | Failed | LeftBooting

  predicate Starts(self: Id, boot: map<Id, BootOutcome>, r: Replica) {
    Owns(self, r) && r.state == Scheduled && r.id in boot && boot[r.id] != NotStarted
  }

  function BootResult(boot: map<Id, BootOutcome>, r: Replica): Replica {
    if r.id !in boot then r
    else r.(state := match boot[r.id] case Up => Resident case Failed => Dead case _ => Booting)
  }

  class FleetOrchestrator {
    const selfHost: Id
    var rows: Rows
    var actions: seq<Action>
    var desired: map<Id, nat>
    var volumes: set<Id>
    var routes: set<Id>

    constructor (selfHost: Id, control: Control)
      ensures this.selfHost == selfHost && actions == [] && Stored() == control
    {
      this.selfHost := selfHost;
      rows, desired, volumes, routes := control.rows, control.desired, control.volumes, control.routes;
      actions := [];
    }

    ghost function Stored(): Control
      reads this
    {
      Control(rows, desired, volumes, routes)
    }

    method ListByApp(app: Id) returns (listed: seq<Replica>)
      requires WellKeyed(rows)
      ensures Lists(rows, app, listed)
    {
      listed := [];
      var todo := rows.Keys;
      while todo != {}
        invariant todo <= rows.Keys
        invariant forall r :: r in listed ==> r.id in rows && rows[r.id] == r && r.app == app && r.id !in todo
        invariant forall id :: id in rows && rows[id].app == app && id !in todo ==> rows[id] in listed
        invariant DistinctIds(listed)
        decreases todo
      {
        var id :| id in todo;
        todo := todo - {id};
        if rows[id].app == app {
          listed := listed + [rows[id]];
        }
      }
    }

    /** DecommissionReplica through recordTeardown: success removes the row, failure keeps it, and
        the first failure of the pass is remembered. */
    method TearDown(env: Env, id: Id, error: Option<PassError>) returns (error': Option<PassError>)
      modifies this`rows, this`actions
      ensures actions == old(actions) + [Stop(id)]
      ensures rows == if id in env.stuck then old(rows) else old(rows) - {id}
      ensures error' == if error.None? && id in env.stuck then Some(TeardownFailed(id)) else error
    {
      actions := actions + [Stop(id)];
      if id in env.stuck {
        error' := if error.None? then Some(TeardownFailed(id)) else error;
      } else {
        rows := rows - {id};
        error' := error;
      }
    }

    method CleanDead(env: Env, listed: seq<Replica>) returns (error: Option<PassError>)
      modifies this`rows, this`actions
      ensures rows == AfterDead(selfHost, env, old(rows), listed, |listed|)
      ensures actions == old(actions) + DeadActions(selfHost, listed)
      ensures error == FirstFailed(env, DeadActions(selfHost, listed))
    {
      hide DeadActions;
      error := None;
      ghost var done: seq<Action> := [];
      assert DeadActions(selfHost, listed) == done + DeadActions(selfHost, listed[0..]);
      for i := 0 to |listed|
        invariant rows == AfterDead(selfHost, env, old(rows), listed, i)
        invariant actions == old(actions) + done
        invariant DeadActions(selfHost, listed) == done + DeadActions(selfHost, listed[i..])
        invariant error == FirstFailed(env, done)
      {
        var r := listed[i];
        DeadActionsAdvance(selfHost, listed, i, done);
        if r.state == Dead && Owns(selfHost, r) {
          error := TearDown(env, r.id, error);
          FirstFailedSnoc(env, done, Stop(r.id));
        } else {
          assert done + DeadHead(selfHost, r) == done;
        }
        done := done + DeadHead(selfHost, r);
      }
      NoActions(selfHost, env, listed);
      assert done + [] == done;
    }

    /** The health loop: it also updates the pass's own copies of the rows. */
    method RefreshResidents(env: Env, listed: seq<Replica>, before: Option<PassError>, ghost earlier: seq<Action>)
      returns (copies: seq<Replica>, error: Option<PassError>)
      requires before == FirstFailed(env, earlier)
      modifies this`rows, this`actions
      ensures rows == AfterHealth(selfHost, env, old(rows), listed, |listed|)
      ensures copies == LocalCopies(selfHost, env, listed)
      ensures actions == old(actions) + ProbeActions(selfHost, env, listed)
      ensures error == FirstFailed(env, earlier + ProbeActions(selfHost, env, listed))
    {
      hide ProbeActions;
      hide FirstFailed;
      copies := listed;
      error := before;
      ghost var done: seq<Action> := [];
      assert earlier + done == earlier;
      assert ProbeActions(selfHost, env, listed) == done + ProbeActions(selfHost, env, listed[0..]);
      for i := 0 to |listed|
        invariant rows == AfterHealth(selfHost, env, old(rows), listed, i)
        invariant |copies| == |listed|
        invariant forall k :: 0 <= k < i ==> copies[k] == LocalCopy(selfHost, env, listed[k])
        invariant forall k :: i <= k < |listed| ==> copies[k] == listed[k]
        invariant actions == old(actions) + done
        invariant ProbeActions(selfHost, env, listed) == done + ProbeActions(selfHost, env, listed[i..])
        invariant error == FirstFailed(env, earlier + done)
      {
        ProbeActionsAdvance(selfHost, env, listed, i, done);
        var copy;
        copy, error := RefreshOne(env, copies[i], error, earlier + done);
        copies := copies[i := copy];
        assert earlier + (done + ProbeHead(selfHost, env, listed[i])) == earlier + done + ProbeHead(selfHost, env, listed[i]);
        done := done + ProbeHead(selfHost, env, listed[i]);
      }
      NoActions(selfHost, env, listed);
      assert done + [] == done;
    }

    method RefreshOne(env: Env, r: Replica, before: Option<PassError>, ghost earlier: seq<Action>)
      returns (copy: Replica, error: Option<PassError>)
      requires before == FirstFailed(env, earlier)
      modifies this`rows, this`actions
      ensures rows == HealthStep(selfHost, env, old(rows), r)
      ensures copy == LocalCopy(selfHost, env, r)
      ensures actions == old(actions) + ProbeHead(selfHost, env, r)
      ensures error == FirstFailed(env, earlier + ProbeHead(selfHost, env, r))
    {
      copy := r;
      error := before;
      if r.state != Resident || !Owns(selfHost, r) {
        assert earlier + ProbeHead(selfHost, env, r) == earlier;
        return;
      }
      actions := actions + [Check(r.id)];
      FirstFailedSnoc(env, earlier, Check(r.id));
      var probe := ProbeOf(env, r.id);
      if probe != Healthy {
        copy := r.(state := Dead);
      }
      if probe == Unhealthy {
        rows := rows[r.id := copy];
        error := TearDown(env, r.id, error);
        FirstFailedSnoc(env, earlier + [Check(r.id)], Stop(r.id));
        assert earlier + ProbeHead(selfHost, env, r) == earlier + [Check(r.id)] + [Stop(r.id)];
      }
    }

    method CountOccupying(copies: seq<Replica>) returns (occupying: seq<Replica>)
      ensures occupying == Occupants(copies)
    {
      hide Occupants;
      occupying := [];
      assert copies[0..] == copies;
      NoneLeft(selfHost, copies);
      for i := 0 to |copies|
        invariant Occupants(copies) == occupying + Occupants(copies[i..])
      {
        OccupantsAdvance(copies, i, occupying);
        if Occupies(copies[i].state) {
          occupying := occupying + [copies[i]];
        }
      }
    }

    method PlaceShortfall(app: App, env: Env, shortfall: nat) returns (error: Option<PassError>)
      modifies this`rows, this`actions
      ensures var placed := Place(app, env, old(rows), 0, shortfall);
              rows == placed.rows && error == placed.error && actions == old(actions) + placed.actions
    {
      error := None;
      ghost var done: seq<Action> := [];
      for n := 0 to shortfall
        invariant actions == old(actions) + done
        invariant var rest := Place(app, env, rows, n, shortfall);
                  Place(app, env, old(rows), 0, shortfall) == Placed(rest.rows, rest.error, done + rest.actions)
      {
        if n >= |env.picks| || env.picks[n].NoneSchedulable? { return None; }
        if env.picks[n].SchedulerBroken? { return Some(SelectHostFailed); }
        var host := env.picks[n].host;
        if PinOf(env).Some? && host != PinOf(env).value { return Some(HostMismatch); }
        if n >= |env.freshIds| || env.freshIds[n] in rows || env.freshIds[n] in env.refusedCreates {
          return Some(CreateFailed);
        }
        ghost var rest := Place(app, env, rows[env.freshIds[n] := NewRow(app, env, n, host)], n + 1, shortfall);
        assert done + ([Create(env.freshIds[n])] + rest.actions) == done + [Create(env.freshIds[n])] + rest.actions;
        rows := rows[env.freshIds[n] := NewRow(app, env, n, host)];
        actions := actions + [Create(env.freshIds[n])];
        done := done + [Create(env.freshIds[n])];
      }
    }

    method LocalOf(occupying: seq<Replica>) returns (local: seq<Replica>)
      ensures local == Local(selfHost, occupying)
    {
      hide Local;
      local := [];
      assert occupying[0..] == occupying;
      NoneLeft(selfHost, occupying);
      for i := 0 to |occupying|
        invariant Local(selfHost, occupying) == local + Local(selfHost, occupying[i..])
      {
        LocalAdvance(selfHost, occupying, i, local);
        if Owns(selfHost, occupying[i]) {
          local := local + [occupying[i]];
        }
      }
    }

    method DrainSurplus(env: Env, occupying: seq<Replica>, desired: nat, before: Option<PassError>, ghost earlier: seq<Action>)
      returns (error: Option<PassError>)
      requires |occupying| > desired && before == FirstFailed(env, earlier)
      modifies this`rows, this`actions
      ensures var drain := DrainList(selfHost, occupying, desired);
              && rows == Drained(env, old(rows), drain)
              && actions == old(actions) + StopActions(drain)
              && error == FirstFailed(env, earlier + StopActions(drain))
    {
      hide FirstFailed;
      hide Drained;
      hide Local;
      hide Order;
      var local := LocalOf(occupying);
      var surplus := Order(local);
      var drain := |occupying| - desired;
      ghost var ids := DrainList(selfHost, occupying, desired);
      error := before;
      var i := 0;
      assert earlier + StopActions(ids[..0]) == earlier;
      assert rows == Drained(env, rows, ids[..0]) by { NothingDrained(env, rows, ids[..0]); }
      while i < drain && i < |surplus|
        invariant 0 <= i <= |ids| == Min(drain, |surplus|)
        invariant rows == Drained(env, old(rows), ids[..i])
        invariant actions == old(actions) + StopActions(ids[..i])
        invariant error == FirstFailed(env, earlier + StopActions(ids[..i]))
      {
        DrainAdvances(env, old(rows), ids, i, earlier);
        error := TearDown(env, surplus[i].id, error);
        assert old(actions) + StopActions(ids[..i]) + [Stop(ids[i])] == old(actions) + StopActions(ids[..i + 1]);
        i := i + 1;
      }
      assert ids[..|ids|] == ids;
    }

    /** One reconcile pass over the rows this app has in the table. */
    method ReconcileApp(app: App, env: Env) returns (error: Option<PassError>, ghost listed: seq<Replica>)
      requires WellKeyed(rows)
      modifies this`rows, this`actions
      ensures Lists(old(rows), app.id, listed)
      ensures var out := Pass(selfHost, app, env, old(rows), listed);
              rows == out.rows && error == out.error && actions == old(actions) + out.actions
    {
      hide Lists;
      hide Finish;
      hide Pass;
      var found := ListByApp(app.id);
      listed := found;
      FreshFinishIsPass(selfHost, app, env, rows, found);
      error := FinishPass(app, env, found);
    }

    /** The pass from its listing on, current or not. */
    method FinishPass(app: App, env: Env, listed: seq<Replica>) returns (error: Option<PassError>)
      modifies this`rows, this`actions
      ensures var out := Finish(selfHost, app, env, old(rows), listed);
              rows == out.rows && error == out.error && actions == old(actions) + out.actions
    {
      hide AfterDead;
      hide AfterHealth;
      hide FirstFailed;
      hide LocalCopies;
      hide Occupants;
      hide DeadActions;
      hide ProbeActions;
      hide Adjust;
      if env.volumes && env.affinityFirst.Pinned? && env.affinityDown { return None; }
      error := CleanDead(env, listed);
      var copies;
      copies, error := RefreshResidents(env, listed, error, DeadActions(selfHost, listed));
      var occupying := CountOccupying(copies);
      error := AdjustCount(app, env, occupying, error, CleanupActions(selfHost, env, listed), old(actions));
    }

    method AdjustCount(app: App, env: Env, occupying: seq<Replica>, before: Option<PassError>,
                       ghost sofar: seq<Action>, ghost base: seq<Action>)
      returns (error: Option<PassError>)
      requires before == FirstFailed(env, sofar) && actions == base + sofar
      modifies this`rows, this`actions
      ensures var out := Adjust(selfHost, app, env, old(rows), occupying, sofar);
              rows == out.rows && error == out.error && actions == base + out.actions
    {
      hide FirstFailed;
      hide Place;
      hide Drained;
      hide DrainList;
      error := before;
      if |occupying| < app.desired {
        if error.Some? { return; }
        if env.volumes && !env.placeable { return None; }
        if env.volumes && env.affinity.AffinityBroken? { return Some(AffinityUnknown); }
        error := PlaceShortfall(app, env, app.desired - |occupying|);
      } else if |occupying| > app.desired {
        error := DrainSurplus(env, occupying, app.desired, error, sofar);
      }
    }

    /** DecommissionApp: refuse, drain, re-list, and only then destroy. */
    method DecommissionApp(app: Id, d: TeardownEnv) returns (verdict: Verdict, ghost listed: seq<Replica>)
      requires WellKeyed(rows)
      modifies this`rows, this`actions, this`desired, this`volumes, this`routes
      ensures Lists(old(rows), app, listed)
      ensures (Stored(), verdict) == Decommission(selfHost, app, d, old(Stored()), listed)
    {
      hide Pass;
      hide Lists;
      var atStart := ListByApp(app);
      listed := atStart;
      if !d.loads { return LoadFailed, listed; }
      if app !in desired { return NotAnApp, listed; }
      if d.ledger == Unreadable { return LedgerFailed, listed; }
      if d.ledger != NoClaim { return ResourceBacked, listed; }
      if !d.updates { return UpdateFailed, listed; }
      desired := desired[app := 0];
      var drainError;
      ghost var drained;
      drainError, drained := ReconcileApp(App(app, desired[app]), d.pass);
      listed := drained;
      CapacityBound(selfHost, App(app, 0), d.pass, old(rows), drained);
      verdict := SettleTeardown(app, d, drainError);
    }

    /** The re-list after the drain decides. */
    method SettleTeardown(app: Id, d: TeardownEnv, drainError: Option<PassError>) returns (verdict: Verdict)
      requires WellKeyed(rows)
      modifies this`desired, this`volumes, this`routes
      ensures (Stored(), verdict) == AfterDrain(selfHost, app, d, old(Stored()), drainError)
    {
      if !d.relists { return RelistFailed; }
      var remaining := ListByApp(app);
      ListedRows(selfHost, rows, app, remaining);
      for i := 0 to |remaining|
        invariant forall k :: 0 <= k < i ==> !Owns(selfHost, remaining[k])
      {
        if Owns(selfHost, remaining[i]) {
          assert remaining[i] in remaining;
          return LocalSurvivor(drainError);
        }
      }
      if drainError.Some? { return DrainFailed(drainError.value); }
      if |remaining| > 0 { return ForeignSurvivor; }
      if d.pass.volumes {
        if !d.volumesDeleted { return VolumesFailed; }
        volumes := volumes - {app};
      }
      if d.routeStore {
        if !d.routesDeleted { return RoutesFailed; }
        routes := routes - {app};
      }
      if !d.rowDeleted { return RowFailed; }
      desired := desired - {app};
      return Done;
    }

    /** actuateScheduledOwned, alone under its lock: exactly this host's scheduled rows are handed
        to BootReplica, each once; no other row changes, and none of them is put back. */
    method ActuateScheduledOwned(boot: map<Id, BootOutcome>) returns (booted: seq<Id>)
      requires WellKeyed(rows)
      modifies this`rows
      ensures rows.Keys == old(rows).Keys
      ensures DistinctSeq(booted)
      ensures forall id :: id in booted <==>
                && id in old(rows) && old(rows)[id].host == Some(selfHost) && old(rows)[id].state == Scheduled
                && id in boot && boot[id] != NotStarted
      ensures forall id :: id in rows && id !in booted ==> rows[id] == old(rows)[id]
      ensures forall id :: id in booted ==>
                rows[id] == old(rows)[id].(state := if boot[id] == Up then Resident else if boot[id] == Failed then Dead else Booting)
    {
      booted := [];
      var todo := set id | id in rows && Owns(selfHost, rows[id]);
      while todo != {}
        invariant todo <= rows.Keys && rows.Keys == old(rows).Keys
        invariant forall id :: id in todo ==> id !in booted && Owns(selfHost, old(rows)[id])
        invariant forall id :: id in rows && id !in todo && Starts(selfHost, boot, old(rows)[id]) ==> id in booted
        invariant DistinctSeq(booted)
        invariant forall id :: id in booted ==> id in rows && Starts(selfHost, boot, old(rows)[id])
        invariant forall id :: id in rows && id !in booted ==> rows[id] == old(rows)[id]
        invariant forall id :: id in booted ==> rows[id] == BootResult(boot, old(rows)[id])
        decreases todo
      {
        var id :| id in todo;
        todo := todo - {id};
        if rows[id].state != Scheduled || id !in boot || boot[id] == NotStarted { continue; }
        BootReplica(boot, id);
        booted := booted + [id];
      }
    }

    /** BootReplica writes booting before it starts the machine, then how the boot ended. */
    method BootReplica(boot: map<Id, BootOutcome>, id: Id)
      requires id in rows && rows[id].id == id && id in boot && boot[id] != NotStarted
      modifies this`rows
      ensures rows == old(rows)[id := BootResult(boot, old(rows)[id])]
    {
      rows := rows[id := rows[id].(state := Booting)];
      if boot[id] == Up {
        rows := rows[id := rows[id].(state := Resident)];
      } else if boot[id] == Failed {
        rows := rows[id := rows[id].(state := Dead)];
      }
    }
  }
}
