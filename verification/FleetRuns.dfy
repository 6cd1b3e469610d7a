/** What every run of the fleet keeps: rows stay with their host, no row is booted twice, and what a boot
    or a pass under way believes of a row is still true enough (internal/usecase/fleet_orchestrator.go:139-141,
    1036-1059, internal/usecase/fleet_replica_runtime.go:230-380). */
module FleetRuns {
  import opened Text
  import opened FleetTypes
  import opened SurplusOrder
  import opened FleetPass
  import opened FleetPassFacts
  import opened FleetOrchestrator
  import opened FleetSteps
  import opened FleetMachine

  // ---------------------------------------------------------------- what a write to the table keeps

  /** All that the invariant says about anything but the table itself. */
  ghost predicate SameRest(s: Fleet, s': Fleet) { s' == s.(rows := s'.rows) }

  lemma RemoveKeepsInv(s: Fleet, id: Id)
    requires Inv(s)
    ensures Inv(s.(rows := s.rows - {id}))
  {
    var s' := s.(rows := s.rows - {id});
    assert forall x :: Booted(s', x) <==> Booted(s, x);
    forall h ensures WorkerOk(s', h) {
      assert WorkerOk(s, h);
    }
    forall p | p in s'.flights ensures FlightOk(s', s'.flights[p]) {
      FlightUnderFewerRows(s, s', s.flights[p]);
    }
  }

  lemma FlightUnderFewerRows(s: Fleet, s': Fleet, f: Flight)
    requires FlightOk(s, f) && SameRest(s, s')
    requires forall id :: id in s'.rows ==> id in s.rows && s'.rows[id] == s.rows[id]
    ensures FlightOk(s', f)
  {
    forall id | Grown(s, id) ensures Grown(s', id) {}
    forall id | Gone(s, id) ensures Gone(s', id) {}
    forall i | 0 <= i < |f.listed| ensures ListedOk(s', f, f.listed[i]) {
      assert ListedOk(s, f, f.listed[i]);
    }
  }

  /** Recording the death of a row that is past booting. */
  lemma DeathKeepsInv(s: Fleet, r: Replica)
    requires Inv(s) && Grown(s, r.id) && r.state == Dead && Stamped(s, r.id, r.host)
    ensures Inv(s.(rows := s.rows[r.id := r]))
    ensures Gone(s.(rows := s.rows[r.id := r]), r.id)
  {
    var s' := s.(rows := s.rows[r.id := r]);
    assert forall x :: Booted(s', x) <==> Booted(s, x);
    forall h ensures WorkerOk(s', h) {
      assert WorkerOk(s, h);
    }
    forall p | p in s'.flights ensures FlightOk(s', s'.flights[p]) {
      FlightUnderDeath(s, s', r, s.flights[p]);
    }
  }

  lemma FlightUnderDeath(s: Fleet, s': Fleet, r: Replica, f: Flight)
    requires FlightOk(s, f) && r.state == Dead && s' == s.(rows := s.rows[r.id := r])
    ensures FlightOk(s', f)
  {
    forall id | Grown(s, id) ensures Grown(s', id) {}
    forall id | Gone(s, id) ensures Gone(s', id) {}
    forall i | 0 <= i < |f.listed| ensures ListedOk(s', f, f.listed[i]) {
      assert ListedOk(s, f, f.listed[i]);
    }
  }

  /** A row of the table that is past booting is past booting for good. */
  lemma TableGrown(s: Fleet, id: Id)
    requires Inv(s) && id in s.rows && Settled(s.rows[id].state)
    ensures Grown(s, id)
  {
    assert Stamped(s, id, s.rows[id].host);
    forall h | h in s.holder ensures id !in s.holder[h].todo && (s.holder[h].boot.Some? ==> s.holder[h].boot.value.row.id != id) {
      assert WorkerOk(s, h);
    }
  }

  // ---------------------------------------------------------------- passes

  /** The pass's place moves on; whoever else is under way does not notice. */
  lemma PcKeepsInv(s: Fleet, p: nat, pc: Pc)
    requires Inv(s) && p in s.flights && FlightOk(s, s.flights[p].(pc := pc))
    ensures Inv(s.(flights := s.flights[p := s.flights[p].(pc := pc)]))
  {
    hide WorkerOk;
    hide FlightOk;
    var s' := s.(flights := s.flights[p := s.flights[p].(pc := pc)]);
    assert forall x :: Booted(s', x) <==> Booted(s, x);
    SameRows(s, s');
  }

  lemma EndKeepsInv(s: Fleet, p: nat)
    requires Inv(s)
    ensures Inv(s.(flights := s.flights - {p}))
  {
    hide WorkerOk;
    hide FlightOk;
    var s' := s.(flights := s.flights - {p});
    assert forall x :: Booted(s', x) <==> Booted(s, x);
    SameRows(s, s');
  }

  /** The judgements on rows, workers and listings do not look at the passes, the deeds or the counts. */
  lemma SameRows(s: Fleet, s': Fleet)
    requires s'.rows == s.rows && s'.stamps == s.stamps && s'.holder == s.holder && s'.boots == s.boots
    ensures forall h :: WorkerOk(s, h) <==> WorkerOk(s', h)
    ensures forall f :: FlightOk(s, f) <==> FlightOk(s', f)
    ensures forall id :: Grown(s, id) <==> Grown(s', id)
  {
    assert forall x :: Booted(s', x) <==> Booted(s, x);
    assert forall id :: Grown(s, id) <==> Grown(s', id);
    assert forall id :: Gone(s, id) <==> Gone(s', id);
    assert forall f, r :: ListedOk(s, f, r) <==> ListedOk(s', f, r);
    forall c ensures WorkerOk(s, c) <==> WorkerOk(s', c) {
      assert forall h, id :: WaitingOk(s, h, id) <==> WaitingOk(s', h, id);
      assert forall h, b :: BootOk(s, h, b) <==> BootOk(s', h, b);
    }
  }

  lemma TouchKeepsInv(s: Fleet, deeds: seq<Deed>)
    requires Inv(s) && forall i :: 0 <= i < |deeds| ==> Stamped(s, deeds[i].row, Some(deeds[i].host))
    ensures Inv(s.(touched := s.touched + deeds))
  {
    hide WorkerOk;
    hide FlightOk;
    var s' := s.(touched := s.touched + deeds);
    assert forall x :: Booted(s', x) <==> Booted(s, x);
    SameRows(s, s');
  }

  /** The table and the stamps after one call of a pass, the pass itself left where it was. */
  function TableAfter(s: Fleet, p: nat): Fleet
    requires p in s.flights
  {
    Stepped(s, p).(flights := s.flights, touched := s.touched)
  }

  /** The call is the recording of a death. */
  predicate FindsSick(f: Flight) { f.pc.Probing? && f.pc.i < |f.listed| && Sickly(f, f.listed[f.pc.i]) }

  /** A call that neither creates a row nor records a death removes at most one row. */
  lemma CallWrites(s: Fleet, f: Flight)
    requires !f.pc.Placing? && !FindsSick(f)
    ensures var rows := Call(s.rows, f).0;
            rows == s.rows || exists id :: rows == s.rows - {id}
  {
    hide DrainOf;
    hide Decide;
  }

  lemma TableKeepsInv(s: Fleet, p: nat)
    requires Inv(s) && p in s.flights && !s.flights[p].pc.Placing?
    ensures Inv(TableAfter(s, p))
    ensures FindsSick(s.flights[p]) ==> Gone(TableAfter(s, p), s.flights[p].listed[s.flights[p].pc.i].id)
  {
    var f := s.flights[p];
    assert FlightOk(s, f);
    var rows := Call(s.rows, f).0;
    assert TableAfter(s, p) == s.(rows := rows);
    if FindsSick(f) {
      ProbeWrites(s.rows, f);
      SickIsGrown(s, f);
      hide Inv;
      hide Call;
      DeathKeepsInv(s, f.listed[f.pc.i].(state := Dead));
    } else {
      CallWrites(s, f);
      hide Inv;
      hide FlightOk;
      hide Call;
      if id :| rows == s.rows - {id} {
        RemoveKeepsInv(s, id);
      }
    }
  }

  lemma ProbeWrites(rows: Rows, f: Flight)
    requires FindsSick(f)
    ensures Call(rows, f).0 == rows[f.listed[f.pc.i].id := f.listed[f.pc.i].(state := Dead)]
  {}

  lemma SickIsGrown(s: Fleet, f: Flight)
    requires FlightOk(s, f) && FindsSick(f)
    ensures Grown(s, f.listed[f.pc.i].id) && Stamped(s, f.listed[f.pc.i].id, f.listed[f.pc.i].host)
  {
    hide Grown;
    hide Gone;
    assert ListedOk(s, f, f.listed[f.pc.i]);
  }

  /** The pass, moved on, still fits the table it left. */
  lemma MovedOnFits(s: Fleet, p: nat)
    requires Inv(s) && p in s.flights && !s.flights[p].pc.Placing?
    ensures var (s1, f, pc) := (TableAfter(s, p), s.flights[p], Call(s.rows, s.flights[p]).1);
            pc.Some? ==> FlightOk(s1, f.(pc := pc.value))
  {
    hide Inv;
    hide FlightOk;
    hide Call;
    hide Gone;
    hide FindsSick;
    var (s1, f, pc) := (TableAfter(s, p), s.flights[p], Call(s.rows, s.flights[p]).1);
    TableKeepsInv(s, p);
    FlightFits(s1, p);
    if pc.Some? {
      MovesOn(s.rows, f);
      FitsOn(s1, f, pc.value);
    }
  }

  lemma FitsOn(s: Fleet, f: Flight, pc: Pc)
    requires FlightOk(s, f) && Used(f) == 0 && Used(f.(pc := pc)) == 0 && Checked(f) <= Checked(f.(pc := pc))
    requires forall i :: Checked(f) <= i < Checked(f.(pc := pc)) ==> (FindsSick(f) && i == f.pc.i) || !Sickly(f, f.listed[i])
    requires FindsSick(f) ==> Gone(s, f.listed[f.pc.i].id)
    requires pc.Burying? && pc.i < |f.listed| ==> Sickly(f, f.listed[pc.i])
    ensures FlightOk(s, f.(pc := pc))
  {
    hide Gone;
    hide Grown;
    var g := f.(pc := pc);
    forall i | 0 <= i < |g.listed| ensures ListedOk(s, g, g.listed[i]) {
      assert ListedOk(s, f, f.listed[i]);
    }
    forall i | 0 <= i < Checked(g) && Sickly(g, g.listed[i]) ensures Gone(s, g.listed[i].id) {
      assert Sickly(f, f.listed[i]);
    }
  }

  /** Where a call that creates nothing takes a pass. */
  lemma MovesOn(rows: Rows, f: Flight)
    requires !f.pc.Placing? && Call(rows, f).1.Some?
    ensures var pc := Call(rows, f).1.value;
            && Checked(f) <= Checked(f.(pc := pc))
            && (forall i :: Checked(f) <= i < Checked(f.(pc := pc)) ==>
                  (FindsSick(f) && i == f.pc.i) || !Sickly(f, f.listed[i]))
            && (pc.Burying? && pc.i < |f.listed| ==> Sickly(f, f.listed[pc.i]))
            && Used(f) == 0 && Used(f.(pc := pc)) == 0
  {
    hide DrainOf;
    hide OccupantsOf;
    hide FirstFailed;
    hide DeadStep;
    hide TornOut;
  }

  lemma DrainOwned(f: Flight, i: nat)
    requires DistinctIds(f.listed) && i < |DrainOf(f)|
    ensures exists k :: 0 <= k < |f.listed| && f.listed[k].id == DrainOf(f)[i] && Owns(f.host, f.listed[k])
  {
    hide DrainList;
    hide DrainsBefore;
    var copies := LocalCopies(f.host, f.env, f.listed);
    assert DistinctIds(copies);
    OccupantsDistinct(copies);
    DrainListFacts(f.host, OccupantsOf(f), f.app.desired);
    hide DistinctIds;
    hide DistinctSeq;
    var id := DrainOf(f)[i];
    assert id in DrainOf(f);
    var r :| r in OccupantsOf(f) && Owns(f.host, r) && r.id == id;
    var k :| 0 <= k < |copies| && copies[k] == r;
    assert f.listed[k].id == id && Owns(f.host, f.listed[k]);
  }

  lemma DeedsOwned(s: Fleet, f: Flight)
    requires FlightOk(s, f)
    ensures forall i :: 0 <= i < |Touched(f)| ==> Stamped(s, Touched(f)[i].row, Some(Touched(f)[i].host))
  {
    hide DrainOf;
    hide Grown;
    hide Gone;
    if f.pc.Shedding? && f.pc.i < |DrainOf(f)| {
      DrainOwned(f, f.pc.i);
      var k :| 0 <= k < |f.listed| && f.listed[k].id == DrainOf(f)[f.pc.i] && Owns(f.host, f.listed[k]);
      assert ListedOk(s, f, f.listed[k]);
    } else if !f.pc.Placing? && !f.pc.Shedding? && f.pc.i < |f.listed| {
      assert ListedOk(s, f, f.listed[f.pc.i]);
    }
  }

  /** The deeds are owned under the stamps as they are afterwards. */
  lemma OtherCallKeepsInv(s: Fleet, p: nat)
    requires Inv(s) && p in s.flights && !s.flights[p].pc.Placing?
    ensures Inv(Stepped(s, p))
  {
    var (f, s1) := (s.flights[p], TableAfter(s, p));
    var pc := Call(s.rows, f).1;
    TableKeepsInv(s, p);
    MovedOnFits(s, p);
    assert FlightOk(s, f);
    DeedsOwned(s, f);
    hide FlightOk;
    hide Touched;
    hide Call;
    assert s1.stamps == s.stamps && s1.flights == s.flights;
    hide Inv;
    var s2 := if pc.None? then s1.(flights := s.flights - {p}) else s1.(flights := s.flights[p := f.(pc := pc.value)]);
    if pc.None? {
      EndKeepsInv(s1, p);
    } else {
      PcKeepsInv(s1, p, pc.value);
    }
    TouchKeepsInv(s2, Touched(f));
    assert Stepped(s, p) == s2.(touched := s2.touched + Touched(f));
  }

  // ---------------------------------------------------------------- creating a row

  /** A new scheduled row under a never-used id, and the pass that made it one further. */
  function Created(s: Fleet, p: nat, r: Replica): Fleet
    requires p in s.flights
  {
    var f := s.flights[p];
    s.(rows := s.rows[r.id := r], stamps := s.stamps[r.id := r.host], flights := s.flights[p := f.(pc := Placing(Used(f) + 1))])
  }

  lemma BootedIsStamped(s: Fleet, id: Id)
    requires BootsOnce(s)
    ensures Booted(s, id) ==> id in s.stamps
  {}

  lemma WorkerUnderCreate(s: Fleet, p: nat, r: Replica, h: nat)
    requires p in s.flights && WorkerOk(s, h) && r.id !in s.stamps
    ensures WorkerOk(Created(s, p, r), h)
  {
    var s' := Created(s, p, r);
    assert forall x :: Booted(s', x) <==> Booted(s, x);
    assert forall host, id :: WaitingOk(s, host, id) ==> WaitingOk(s', host, id);
    assert forall host, b :: BootOk(s, host, b) ==> BootOk(s', host, b);
  }

  lemma RowsUnderCreate(s: Fleet, p: nat, r: Replica)
    requires Keyed(s) && BootsOnce(s) && TouchesOwn(s) && p in s.flights && r.id !in s.stamps
    ensures var s' := Created(s, p, r); Keyed(s') && BootsOnce(s') && TouchesOwn(s')
  {
    var s' := Created(s, p, r);
    assert forall x :: Booted(s', x) <==> Booted(s, x);
    BootedIsStamped(s, r.id);
  }

  lemma FlightUnderCreate(s: Fleet, p: nat, r: Replica, f: Flight)
    requires p in s.flights && FlightOk(s, f) && r.id !in s.stamps && r.id !in f.env.freshIds
    ensures FlightOk(Created(s, p, r), f)
  {
    var s' := Created(s, p, r);
    forall id | Grown(s, id) ensures Grown(s', id) {}
    forall id | Gone(s, id) ensures Gone(s', id) {}
    forall i | 0 <= i < |f.listed| ensures ListedOk(s', f, f.listed[i]) {
      assert ListedOk(s, f, f.listed[i]);
    }
  }

  lemma MakerFits(s: Fleet, p: nat, r: Replica)
    requires p in s.flights && FlightOk(s, s.flights[p]) && s.flights[p].pc.Placing? && r.id !in s.stamps
    requires Used(s.flights[p]) < |s.flights[p].env.freshIds| && r.id == s.flights[p].env.freshIds[Used(s.flights[p])]
    ensures FlightOk(Created(s, p, r), s.flights[p].(pc := Placing(Used(s.flights[p]) + 1)))
  {
    var (s', f) := (Created(s, p, r), s.flights[p]);
    var g := f.(pc := Placing(Used(f) + 1));
    forall id | Grown(s, id) ensures Grown(s', id) {}
    forall id | Gone(s, id) ensures Gone(s', id) {}
    forall i | 0 <= i < |g.listed| ensures ListedOk(s', g, g.listed[i]) {
      assert ListedOk(s, f, f.listed[i]);
    }
    forall i | 0 <= i < Checked(g) && Sickly(g, g.listed[i]) ensures Gone(s', g.listed[i].id) {
      assert Sickly(f, f.listed[i]);
    }
  }

  lemma CreateKeepsInv(s: Fleet, p: nat)
    requires Inv(s) && p in s.flights && Creates(s.rows, s.flights[p])
    ensures Inv(Stepped(s, p))
  {
    assert FlightOk(s, s.flights[p]);
    NextIdUnused(s, s.flights[p]);
    CreatedIsStepped(s, p);
    hide Inv;
    hide Stepped;
    CreatedKeepsInv(s, p, NthRow(s.flights[p], s.flights[p].pc.n));
  }

  lemma CreatedKeepsInv(s: Fleet, p: nat, r: Replica)
    requires Inv(s) && p in s.flights && s.flights[p].pc.Placing? && r.id !in s.stamps
    requires Used(s.flights[p]) < |s.flights[p].env.freshIds| && r.id == s.flights[p].env.freshIds[Used(s.flights[p])]
    ensures Inv(Created(s, p, r))
  {
    hide Keyed;
    hide BootsOnce;
    hide TouchesOwn;
    hide FlightOk;
    hide WorkerOk;
    hide FlightsApart;
    var f := s.flights[p];
    assert f.env.freshIds[Used(f)] in f.env.freshIds;
    hide Used;
    RowsUnderCreate(s, p, r);
    OthersUnderCreate(s, p, r);
    MakerFits(s, p, r);
    CreatedApart(s, p, r);
    forall h ensures WorkerOk(Created(s, p, r), h) {
      WorkerUnderCreate(s, p, r, h);
    }
  }

  lemma CreatedApart(s: Fleet, p: nat, r: Replica)
    requires FlightsApart(s) && p in s.flights
    ensures FlightsApart(Created(s, p, r))
  {
    ApartKept(s, Created(s, p, r));
  }

  lemma OthersUnderCreate(s: Fleet, p: nat, r: Replica)
    requires FlightsApart(s) && p in s.flights && r.id !in s.stamps && r.id in s.flights[p].env.freshIds
    requires forall q :: q in s.flights ==> FlightOk(s, s.flights[q])
    ensures forall q :: q in s.flights && q != p ==> FlightOk(Created(s, p, r), s.flights[q])
  {
    hide FlightOk;
    hide FlightsApart;
    forall q | q in s.flights && q != p ensures FlightOk(Created(s, p, r), s.flights[q]) {
      ApartIds(s, p, q, r.id);
      FlightUnderCreate(s, p, r, s.flights[q]);
    }
  }

  lemma ApartIds(s: Fleet, p: nat, q: nat, id: Id)
    requires FlightsApart(s) && p in s.flights && q in s.flights && p != q && id in s.flights[p].env.freshIds
    ensures id !in s.flights[q].env.freshIds
  {}

  lemma CreatedIsStepped(s: Fleet, p: nat)
    requires p in s.flights && Creates(s.rows, s.flights[p])
    ensures Stepped(s, p) == Created(s, p, NthRow(s.flights[p], s.flights[p].pc.n))
  {
    assert s.touched + [] == s.touched;
  }

  lemma ApartKept(s: Fleet, s': Fleet)
    requires FlightsApart(s) && s'.flights.Keys <= s.flights.Keys
    requires forall p :: p in s'.flights ==> s'.flights[p].env == s.flights[p].env
    ensures FlightsApart(s')
  {}

  lemma NextIdUnused(s: Fleet, f: Flight)
    requires FlightOk(s, f) && Creates(s.rows, f)
    ensures var id := NthRow(f, f.pc.n).id;
            id !in s.stamps && id in f.env.freshIds && Used(f) < |f.env.freshIds| && id == f.env.freshIds[Used(f)]
  {
    hide Grown;
    hide Gone;
  }

  lemma StepKeepsInv(s: Fleet, p: nat)
    requires Inv(s) && p in s.flights
    ensures Inv(Stepped(s, p))
  {
    hide Inv;
    var f := s.flights[p];
    if !f.pc.Placing? {
      OtherCallKeepsInv(s, p);
    } else if Creates(s.rows, f) {
      CreateKeepsInv(s, p);
    } else {
      EndKeepsInv(s, p);
      assert s.touched + [] == s.touched;
    }
  }

  // ---------------------------------------------------------------- listing

  lemma ListKeepsInv(s: Fleet, m: Move, s': Fleet)
    requires Inv(s) && m.List? && Next(s, m, s')
    ensures Inv(s')
  {
    hide Inv;
    hide FlightOk;
    hide Lists;
    hide Fresh;
    var f := s'.flights[m.p];
    ListerFits(s, m.app, f);
    FreshApart(s, m.p, f);
    AddedKeepsInv(s, m.p, f);
  }

  lemma ListerFits(s: Fleet, app: Id, f: Flight)
    requires Inv(s) && Lists(s.rows, app, f.listed) && f.app.id == app && Fresh(s, f.env.freshIds) && f.pc == Cleaning(0)
    ensures FlightOk(s, f)
  {
    hide Inv;
    hide Gone;
    hide Grown;
    hide Sickly;
    forall i | 0 <= i < |f.listed| ensures ListedOk(s, f, f.listed[i]) {
      ListedFromTable(s, app, f, i);
    }
    assert forall j :: 0 <= j < |f.env.freshIds| ==> f.env.freshIds[j] in f.env.freshIds;
  }

  lemma FreshApart(s: Fleet, p: nat, f: Flight)
    requires Inv(s) && Fresh(s, f.env.freshIds) && p !in s.flights
    ensures FlightsApart(s.(flights := s.flights[p := f]))
  {
    hide FlightOk;
    hide WorkerOk;
    ApartFromFresh(s, p, f);
  }

  lemma AddedKeepsInv(s: Fleet, p: nat, f: Flight)
    requires Inv(s) && p !in s.flights && FlightOk(s, f) && FlightsApart(s.(flights := s.flights[p := f]))
    ensures Inv(s.(flights := s.flights[p := f]))
  {
    hide FlightOk;
    hide WorkerOk;
    hide FlightsApart;
    var s' := s.(flights := s.flights[p := f]);
    assert forall x :: Booted(s', x) <==> Booted(s, x);
    SameRows(s, s');
  }

  lemma ListedFromTable(s: Fleet, app: Id, f: Flight, i: nat)
    requires Inv(s) && Lists(s.rows, app, f.listed) && f.app.id == app && i < |f.listed|
    ensures ListedOk(s, f, f.listed[i])
  {
    hide Inv;
    var r := f.listed[i];
    assert r in f.listed && r.id in s.rows && s.rows[r.id] == r && r.app == app;
    RowStamped(s, r.id);
    if Settled(r.state) {
      TableGrown(s, r.id);
    }
  }

  lemma FlightFits(s: Fleet, p: nat)
    requires Inv(s) && p in s.flights
    ensures FlightOk(s, s.flights[p])
  {
    hide FlightOk;
    hide WorkerOk;
  }

  lemma RowStamped(s: Fleet, id: Id)
    requires Inv(s) && id in s.rows
    ensures Stamped(s, id, s.rows[id].host) && s.rows[id].id == id
  {
    hide FlightOk;
    hide WorkerOk;
  }

  lemma ApartFromFresh(s: Fleet, p: nat, f: Flight)
    requires FlightsApart(s) && p !in s.flights
    requires forall q, id :: q in s.flights && id in f.env.freshIds ==> id !in s.flights[q].env.freshIds
    ensures FlightsApart(s.(flights := s.flights[p := f]))
  {
    var s' := s.(flights := s.flights[p := f]);
    forall a, b, id | a in s'.flights && b in s'.flights && a != b && id in s'.flights[a].env.freshIds
      ensures id !in s'.flights[b].env.freshIds
    {
      if b == p {
        assert a in s.flights;
      }
    }
  }

  // ---------------------------------------------------------------- actuation

  /** Only the workers changed, and none of them took on a row past booting. */
  lemma WorkersKeepInv(s: Fleet, s': Fleet)
    requires Inv(s) && s' == s.(holder := s'.holder) && Locked(s')
    requires forall h :: WorkerOk(s', h)
    requires forall id :: Grown(s, id) ==> Grown(s', id)
    ensures Inv(s')
  {
    hide WorkerOk;
    hide Grown;
    assert forall x :: Booted(s', x) <==> Booted(s, x);
    assert forall id :: Gone(s, id) ==> Gone(s', id);
    forall p | p in s'.flights ensures FlightOk(s', s'.flights[p]) {
      var f := s.flights[p];
      assert FlightOk(s, f);
      forall i | 0 <= i < |f.listed| ensures ListedOk(s', f, f.listed[i]) {
        assert ListedOk(s, f, f.listed[i]);
      }
    }
    assert FlightsApart(s') by { ApartKept(s, s'); }
  }

  lemma EnterKeepsInv(s: Fleet, m: Move, s': Fleet)
    requires Inv(s) && m.Enter? && Next(s, m, s')
    ensures Inv(s')
  {
    hide FlightOk;
    hide Lists;
    hide Stepped;
    assert forall x :: Booted(s', x) <==> Booted(s, x);
    forall h ensures WorkerOk(s', h) {
      assert WorkerOk(s, h);
      if h == m.caller {
        forall i | 0 <= i < |m.todo| ensures WaitingOk(s', m.host, m.todo[i]) {
          assert m.todo[i] in m.todo;
          RowStamped(s, m.todo[i]);
        }
      }
    }
    forall id | Grown(s, id) ensures Grown(s', id) {
      assert id !in m.todo;
    }
    WorkersKeepInv(s, s');
  }

  lemma DistinctTail(s: seq<Id>)
    requires DistinctSeq(s) && s != []
    ensures DistinctSeq(s[1..]) && s[0] !in s[1..] && forall i :: 0 <= i < |s| - 1 ==> s[1..][i] == s[i + 1]
    ensures forall id :: id in s[1..] ==> id in s
  {}

  lemma LoadKeepsInv(s: Fleet, m: Move, s': Fleet)
    requires Inv(s) && m.Load? && Next(s, m, s')
    ensures Inv(s')
  {
    hide FlightOk;
    hide Lists;
    hide Stepped;
    hide DistinctSeq;
    assert forall x :: Booted(s', x) <==> Booted(s, x);
    var (host, todo) := (s.holder[m.caller].host, s.holder[m.caller].todo);
    assert WorkerOk(s, m.caller) && WaitingOk(s, host, todo[0]);
    DistinctTail(todo);
    if todo[0] in s.rows {
      RowStamped(s, todo[0]);
    }
    assert todo[0] in todo;
    forall h ensures WorkerOk(s', h) {
      assert WorkerOk(s, h);
    }
    forall id | Grown(s, id) ensures Grown(s', id) {
      assert id !in todo;
    }
    WorkersKeepInv(s, s');
  }

  lemma FewerWorkersKeepInv(s: Fleet, s': Fleet)
    requires Inv(s) && s' == s.(holder := s'.holder) && s'.holder.Keys <= s.holder.Keys
    requires forall h :: h in s'.holder ==> s'.holder[h] == s.holder[h] || s'.holder[h] == s.holder[h].(boot := None)
    ensures Inv(s')
  {
    hide FlightOk;
    hide DistinctSeq;
    assert forall x :: Booted(s', x) <==> Booted(s, x);
    forall h ensures WorkerOk(s', h) {
      assert WorkerOk(s, h);
    }
    WorkersKeepInv(s, s');
  }

  /** A boot writes its copy: the row is then as the copy says, whether or not it was still there. */
  function Written(s: Fleet, h: nat, state: ReplicaState, b: Option<Boot>): Fleet
    requires InBoot(s, h)
  {
    var copy := s.holder[h].boot.value.row.(state := state);
    WithBoot(s, h, b).(rows := s.rows[copy.id := copy])
  }

  /** Nobody but the boot's own worker and the table is concerned with a row under boot. */
  lemma OthersApart(s: Fleet, h: nat, k: nat)
    requires WorkerOk(s, h) && WorkerOk(s, k) && InBoot(s, h) && k in s.holder && k != h && Locked(s)
    ensures var id := s.holder[h].boot.value.row.id;
            id !in s.holder[k].todo && (s.holder[k].boot.Some? ==> s.holder[k].boot.value.row.id != id)
  {
    hide DistinctSeq;
    var id := s.holder[h].boot.value.row.id;
    forall i | 0 <= i < |s.holder[k].todo| ensures s.holder[k].todo[i] != id {
      assert WaitingOk(s, s.holder[k].host, s.holder[k].todo[i]);
    }
  }

  lemma WrittenWorkers(s: Fleet, h: nat, state: ReplicaState, boots: seq<Deed>, b: Option<Boot>, k: nat)
    requires Inv(s) && InBoot(s, h)
    requires var copy := s.holder[h].boot.value.row.(state := state);
             && (boots == s.boots || boots == s.boots + [Deed(s.holder[h].host, copy.id)])
             && (b.Some? ==> b.value == Boot(copy, true) && state == Booting && boots == s.boots + [Deed(s.holder[h].host, copy.id)])
    ensures WorkerOk(Written(s, h, state, b).(boots := boots), k)
  {
    hide FlightOk;
    hide DistinctSeq;
    var s' := Written(s, h, state, b).(boots := boots);
    var id := s.holder[h].boot.value.row.id;
    assert WorkerOk(s, h) && WorkerOk(s, k);
    BootedMore(s, s', s.holder[h].host, id);
    if k in s.holder {
      if k != h {
        OthersApart(s, h, k);
      }
      var host := s.holder[k].host;
      forall i | 0 <= i < |s.holder[k].todo| ensures WaitingOk(s', host, s.holder[k].todo[i]) {
        assert WaitingOk(s, host, s.holder[k].todo[i]) && s.holder[k].todo[i] in s.holder[k].todo;
      }
    }
  }

  lemma BootedMore(s: Fleet, s': Fleet, h: Id, id: Id)
    requires s'.boots == s.boots || s'.boots == s.boots + [Deed(h, id)]
    ensures forall x :: x != id ==> (Booted(s', x) <==> Booted(s, x))
    ensures s'.boots != s.boots ==> Booted(s', id)
    ensures Booted(s, id) ==> Booted(s', id)
  {
    forall x | x != id ensures Booted(s', x) <==> Booted(s, x) {
      assert forall i :: 0 <= i < |s.boots| ==> s'.boots[i] == s.boots[i];
    }
    if s'.boots != s.boots {
      assert s'.boots[|s.boots|].row == id;
    }
    if Booted(s, id) {
      var i :| 0 <= i < |s.boots| && s.boots[i].row == id;
      assert s'.boots[i] == s.boots[i];
    }
  }

  lemma WrittenFlights(s: Fleet, h: nat, state: ReplicaState, boots: seq<Deed>, b: Option<Boot>, f: Flight)
    requires InBoot(s, h) && FlightOk(s, f) && (b.Some? ==> b.value.row.id == s.holder[h].boot.value.row.id)
    ensures FlightOk(Written(s, h, state, b).(boots := boots), f)
  {
    var s' := Written(s, h, state, b).(boots := boots);
    forall id | Grown(s, id) ensures Grown(s', id) && (Gone(s, id) ==> Gone(s', id)) {
      assert id != s.holder[h].boot.value.row.id;
    }
    forall i | 0 <= i < |f.listed| ensures ListedOk(s', f, f.listed[i]) {
      assert ListedOk(s, f, f.listed[i]);
    }
  }

  lemma WrittenRows(s: Fleet, h: nat, state: ReplicaState, b: Option<Boot>, first: bool)
    requires Inv(s) && InBoot(s, h) && state != Scheduled && (first <==> !s.holder[h].boot.value.saved)
    ensures var boots := if first then s.boots + [Deed(s.holder[h].host, s.holder[h].boot.value.row.id)] else s.boots;
            var s' := Written(s, h, state, b).(boots := boots);
            Keyed(s') && BootsOnce(s') && TouchesOwn(s')
  {
    hide FlightOk;
    hide DistinctSeq;
    hide WaitingOk;
    var (id, copy) := (s.holder[h].boot.value.row.id, s.holder[h].boot.value.row.(state := state));
    assert WorkerOk(s, h);
    var host := s.holder[h].host;
    assert BootOk(s, host, s.holder[h].boot.value);
    hide WorkerOk;
    var boots := if first then s.boots + [Deed(host, id)] else s.boots;
    var s' := Written(s, h, state, b).(boots := boots);
    assert s'.rows == s.rows[id := copy] && s'.stamps == s.stamps && s'.touched == s.touched;
    hide Written;
    assert Keyed(s') && TouchesOwn(s');
    LoggedOnce(s, s', host, id);
  }

  lemma LoggedOnce(s: Fleet, s': Fleet, h: Id, id: Id)
    requires BootsOnce(s) && s'.stamps == s.stamps && Stamped(s, id, Some(h))
    requires s'.boots == (if Booted(s, id) then s.boots else s.boots + [Deed(h, id)])
    requires id in s'.rows && s'.rows[id].state != Scheduled
    requires forall x :: x != id ==> (x in s'.rows <==> x in s.rows) && (x in s.rows ==> s'.rows[x] == s.rows[x])
    ensures BootsOnce(s')
  {
    BootedMore(s, s', h, id);
    forall i | 0 <= i < |s.boots| ensures s'.boots[i] == s.boots[i] && (!Booted(s, id) ==> s.boots[i].row != id) {
      assert Booted(s, s.boots[i].row);
    }
    forall i | 0 <= i < |s'.boots| ensures Stamped(s', s'.boots[i].row, Some(s'.boots[i].host)) {
      assert i < |s.boots| ==> Stamped(s, s'.boots[i].row, Some(s'.boots[i].host));
    }
    forall i, j | 0 <= i < j < |s'.boots| ensures s'.boots[i].row != s'.boots[j].row {
      assert s'.boots[i] == s.boots[i];
    }
  }

  lemma WriteKeepsInv(s: Fleet, h: nat, state: ReplicaState, b: Option<Boot>)
    requires Inv(s) && InBoot(s, h) && state != Scheduled
    requires var (boot, copy) := (s.holder[h].boot.value, s.holder[h].boot.value.row.(state := state));
             b == if boot.saved then None else Some(Boot(copy, true))
    requires !s.holder[h].boot.value.saved ==> state == Booting
    ensures var boots := if s.holder[h].boot.value.saved then s.boots else s.boots + [Deed(s.holder[h].host, s.holder[h].boot.value.row.id)];
            Inv(Written(s, h, state, b).(boots := boots))
  {
    var first := !s.holder[h].boot.value.saved;
    var boots := if first then s.boots + [Deed(s.holder[h].host, s.holder[h].boot.value.row.id)] else s.boots;
    var s' := Written(s, h, state, b).(boots := boots);
    WrittenRows(s, h, state, b, first);
    hide FlightOk;
    hide WorkerOk;
    forall k ensures WorkerOk(s', k) {
      WrittenWorkers(s, h, state, boots, b, k);
    }
    forall p | p in s'.flights ensures FlightOk(s', s'.flights[p]) {
      WrittenFlights(s, h, state, boots, b, s.flights[p]);
    }
    ApartKept(s, s');
  }

  lemma HealthKeepsInv(s: Fleet, m: Move, s': Fleet)
    requires Inv(s) && m.Health? && Next(s, m, s')
    ensures Inv(s')
  {
    hide Lists;
    hide Stepped;
    hide Inv;
    RowStamped(s, m.row);
    TableGrown(s, m.row);
    var s1 := if m.dead then s.(rows := s.rows[m.row := s.rows[m.row].(state := Dead)]) else s;
    if m.dead {
      DeathKeepsInv(s, s.rows[m.row].(state := Dead));
    }
    TouchKeepsInv(s1, [Deed(m.host, m.row)]);
  }

  lemma RescaleKeepsInv(s: Fleet, desired: map<Id, nat>)
    requires Inv(s)
    ensures Inv(s.(desired := desired))
  {
    hide WorkerOk;
    hide FlightOk;
    var s' := s.(desired := desired);
    assert forall x :: Booted(s', x) <==> Booted(s, x);
    SameRows(s, s');
  }

  lemma BootWriteKeepsInv(s: Fleet, m: Move, s': Fleet)
    requires (m.SaveBooting? || m.FinishBoot?) && Inv(s) && Next(s, m, s')
    ensures Inv(s')
  {
    hide Inv;
    hide Lists;
    hide Stepped;
    hide DistinctSeq;
    hide Fresh;
    var h := m.caller;
    if m.SaveBooting? && m.lands {
      WriteKeepsInv(s, h, Booting, Some(Boot(s.holder[h].boot.value.row.(state := Booting), true)));
    } else if m.FinishBoot? && m.end != NotWritten {
      WriteKeepsInv(s, h, EndState(m.end), None);
    } else {
      FewerWorkersKeepInv(s, s');
    }
  }

  lemma NextKeepsInv(s: Fleet, m: Move, s': Fleet)
    requires Inv(s) && Next(s, m, s')
    ensures Inv(s')
  {
    hide Inv;
    hide Lists;
    hide Stepped;
    hide DistinctSeq;
    hide Fresh;
    match m
    case List(_, _, _, _, _) => ListKeepsInv(s, m, s');
    case Step(p) => StepKeepsInv(s, p);
    case Abandon(p) => EndKeepsInv(s, p);
    case Rescale(app, count) => RescaleKeepsInv(s, s'.desired);
    case Enter(_, _, _) => EnterKeepsInv(s, m, s');
    case Load(_) => LoadKeepsInv(s, m, s');
    case SaveBooting(_, _) => BootWriteKeepsInv(s, m, s');
    case FinishBoot(_, _) => BootWriteKeepsInv(s, m, s');
    case Leave(_) => FewerWorkersKeepInv(s, s');
    case Health(_, _, _) => HealthKeepsInv(s, m, s');
  }

  lemma QuietInv(s: Fleet)
    requires Quiet(s)
    ensures Inv(s)
  {}

  lemma {:induction false} ContinuesKeepsInv(run: seq<Fleet>, moves: seq<Move>, k: nat)
    requires Continues(run, moves) && Inv(run[0]) && k < |run|
    ensures Inv(run[k])
  {
    hide Next;
    hide Inv;
    if k > 0 {
      ContinuesKeepsInv(run, moves, k - 1);
      assert Next(run[k - 1], moves[k - 1], run[k]);
      NextKeepsInv(run[k - 1], moves[k - 1], run[k]);
    }
  }

  lemma RunKeepsInv(run: seq<Fleet>, moves: seq<Move>, k: nat)
    requires IsRun(run, moves) && k < |run|
    ensures Inv(run[k])
  {
    hide Next;
    QuietInv(run[0]);
    ContinuesKeepsInv(run, moves, k);
  }

  /** In every run, whatever mix of tick and wake callers and however passes and boots overlap: each row
      is booted at most once, and only by the host it is stamped with. */
  lemma EachRowBootsAtMostOnce(run: seq<Fleet>, moves: seq<Move>, k: nat, i: nat, j: nat)
    requires IsRun(run, moves) && k < |run| && i < |run[k].boots| && j < |run[k].boots|
    ensures i != j ==> run[k].boots[i].row != run[k].boots[j].row
    ensures Stamped(run[k], run[k].boots[i].row, Some(run[k].boots[i].host))
  {
    RunKeepsInv(run, moves, k);
    hide IsRun;
    hide WorkerOk;
    hide FlightOk;
  }

  /** In every run, every probe and every teardown attempt was made by the host the row is stamped with,
      and a row's host is its stamp. */
  lemma OnlyTheStampedHostActs(run: seq<Fleet>, moves: seq<Move>, k: nat, i: nat)
    requires IsRun(run, moves) && k < |run| && i < |run[k].touched|
    ensures Stamped(run[k], run[k].touched[i].row, Some(run[k].touched[i].host))
    ensures forall id :: id in run[k].rows ==> Stamped(run[k], id, run[k].rows[id].host)
  {
    RunKeepsInv(run, moves, k);
    hide IsRun;
    hide WorkerOk;
    hide FlightOk;
  }

  // ---------------------------------------------------------------- affinity

  ghost predicate PinnedTo(m: Move, app: Id, h: Id) {
    m.List? && m.app == app ==> m.env.volumes && m.env.affinity == Pinned(h)
  }

  /** A copy of a row of the app that was not there at first carries this host. */
  ghost predicate Affined(r: Replica, first: Rows, app: Id, h: Id) {
    r.app == app ==> r.id in first || r.host == Some(h)
  }

  ghost predicate AffinedTo(rows: Rows, first: Rows, app: Id, h: Id) {
    forall id :: id in rows ==> Affined(rows[id], first, app, h)
  }

  /** So do the copies that boots and passes keep, and the passes of the app know their host. */
  ghost predicate AllAffined(s: Fleet, first: Rows, app: Id, h: Id) {
    && AffinedTo(s.rows, first, app, h)
    && (forall k :: k in s.holder && s.holder[k].boot.Some? ==> Affined(s.holder[k].boot.value.row, first, app, h))
    && (forall p :: p in s.flights ==> FlightAffined(s.flights[p], first, app, h))
  }

  ghost predicate FlightAffined(f: Flight, first: Rows, app: Id, h: Id) {
    && (forall i :: 0 <= i < |f.listed| ==> Affined(f.listed[i], first, app, h))
    && (f.app.id == app ==> f.env.volumes && f.env.affinity == Pinned(h))
  }

  lemma WriteStaysAffined(rows: Rows, r: Replica, first: Rows, app: Id, h: Id)
    requires AffinedTo(rows, first, app, h) && Affined(r, first, app, h)
    ensures AffinedTo(rows[r.id := r], first, app, h)
  {}

  lemma RemovalStaysAffined(rows: Rows, id: Id, first: Rows, app: Id, h: Id)
    requires AffinedTo(rows, first, app, h)
    ensures AffinedTo(rows - {id}, first, app, h)
  {}

  lemma CallStaysAffined(s: Fleet, f: Flight, first: Rows, app: Id, h: Id)
    requires AffinedTo(s.rows, first, app, h) && FlightAffined(f, first, app, h)
    ensures AffinedTo(Call(s.rows, f).0, first, app, h)
  {
    hide AffinedTo;
    if FindsSick(f) {
      ProbeWrites(s.rows, f);
      WriteStaysAffined(s.rows, f.listed[f.pc.i].(state := Dead), first, app, h);
    } else if !f.pc.Placing? {
      CallWrites(s, f);
      hide Call;
      if id :| Call(s.rows, f).0 == s.rows - {id} {
        RemovalStaysAffined(s.rows, id, first, app, h);
      }
    } else if Places(s.rows, f, f.pc.n) {
      WriteStaysAffined(s.rows, NthRow(f, f.pc.n), first, app, h);
    }
  }

  lemma StepStaysAffined(s: Fleet, p: nat, first: Rows, app: Id, h: Id)
    requires p in s.flights && AllAffined(s, first, app, h)
    ensures AllAffined(Stepped(s, p), first, app, h)
  {
    hide AffinedTo;
    hide Affined;
    hide Call;
    CallStaysAffined(s, s.flights[p], first, app, h);
  }

  lemma ListStaysAffined(s: Fleet, m: Move, s': Fleet, first: Rows, app: Id, h: Id)
    requires m.List? && Next(s, m, s') && AllAffined(s, first, app, h) && PinnedTo(m, app, h)
    ensures AllAffined(s', first, app, h)
  {
    hide Fresh;
    forall i | 0 <= i < |m.listed| ensures Affined(m.listed[i], first, app, h) {
      assert m.listed[i] in m.listed;
      assert m.listed[i] == s.rows[m.listed[i].id];
    }
    hide Affined;
    hide Lists;
  }

  lemma LoadStaysAffined(s: Fleet, m: Move, s': Fleet, first: Rows, app: Id, h: Id)
    requires m.Load? && Next(s, m, s') && AllAffined(s, first, app, h)
    ensures AllAffined(s', first, app, h)
  {
    hide Affined;
    hide FlightAffined;
    hide Lists;
    hide Stepped;
  }

  /** Writing back a row of the app's makes, with the boot's copy kept or dropped. */
  lemma WriteBackStaysAffined(s: Fleet, host: nat, r: Replica, keep: bool, boots: seq<Deed>, first: Rows, app: Id, h: Id)
    requires host in s.holder && AllAffined(s, first, app, h) && Affined(r, first, app, h)
    ensures AllAffined(
      WithBoot(s, host, if keep then Some(Boot(r, true)) else None).(rows := s.rows[r.id := r], boots := boots), first, app, h)
  {
    hide FlightAffined;
    hide Affined;
    hide AffinedTo;
    WriteStaysAffined(s.rows, r, first, app, h);
  }

  lemma DropStaysAffined(s: Fleet, host: nat, first: Rows, app: Id, h: Id)
    requires host in s.holder && AllAffined(s, first, app, h)
    ensures AllAffined(WithBoot(s, host, None), first, app, h)
  {
    hide FlightAffined;
    hide Affined;
    hide AffinedTo;
  }

  lemma CopyAffined(s: Fleet, host: nat, state: ReplicaState, first: Rows, app: Id, h: Id)
    requires InBoot(s, host) && AllAffined(s, first, app, h)
    ensures Affined(s.holder[host].boot.value.row.(state := state), first, app, h)
  {
    hide FlightAffined;
    hide AffinedTo;
  }

  lemma BootStaysAffined(s: Fleet, m: Move, s': Fleet, first: Rows, app: Id, h: Id)
    requires (m.SaveBooting? || m.FinishBoot?) && Next(s, m, s') && AllAffined(s, first, app, h)
    ensures AllAffined(s', first, app, h)
  {
    hide AllAffined;
    hide Affined;
    hide Lists;
    hide Stepped;
    hide WithBoot;
    var host := m.caller;
    var state := if m.SaveBooting? then Booting else EndState(m.end);
    var copy := s.holder[host].boot.value.row.(state := state);
    CopyAffined(s, host, state, first, app, h);
    DropStaysAffined(s, host, first, app, h);
    var w := WithBoot(s, host, if m.SaveBooting? then Some(Boot(copy, true)) else None);
    var boots := if m.SaveBooting? then s.boots + [Deed(s.holder[host].host, copy.id)] else s.boots;
    WriteBackStaysAffined(s, host, copy, m.SaveBooting?, boots, first, app, h);
    if m.FinishBoot? {
      assert w.boots == s.boots by { KeepsBoots(s, host, None); }
      assert w.(rows := s.rows[copy.id := copy], boots := boots) == w.(rows := s.rows[copy.id := copy]);
    }
  }

  lemma KeepsBoots(s: Fleet, host: nat, b: Option<Boot>)
    requires host in s.holder
    ensures WithBoot(s, host, b).boots == s.boots
  {}

  lemma NextStaysAffined(s: Fleet, m: Move, s': Fleet, first: Rows, app: Id, h: Id)
    requires Next(s, m, s') && AllAffined(s, first, app, h) && PinnedTo(m, app, h)
    ensures AllAffined(s', first, app, h)
  {
    if m.List? || m.Step? || m.Load? || m.SaveBooting? || m.FinishBoot? {
      hide AllAffined;
      if m.List? {
        hide Next;
        ListStaysAffined(s, m, s', first, app, h);
      } else if m.Step? {
        hide Stepped;
        StepStaysAffined(s, m.p, first, app, h);
      } else if m.Load? {
        hide Next;
        LoadStaysAffined(s, m, s', first, app, h);
      } else {
        hide Next;
        BootStaysAffined(s, m, s', first, app, h);
      }
    } else {
      hide Lists;
      hide Stepped;
      hide FlightAffined;
      hide DistinctSeq;
      if m.Health? {
        hide AffinedTo;
        assert Affined(s.rows[m.row], first, app, h) by { RowAffined(s, m.row, first, app, h); }
        WriteStaysAffined(s.rows, s.rows[m.row].(state := Dead), first, app, h);
      }
    }
  }

  lemma RowAffined(s: Fleet, id: Id, first: Rows, app: Id, h: Id)
    requires AllAffined(s, first, app, h) && id in s.rows
    ensures Affined(s.rows[id], first, app, h)
  {}

  /** While an app's volumes agree on a host, every row of it that turns up in a run, created or written
      back by a boot, was there at the start or carries that host. */
  lemma {:induction false} AffinityOverRuns(run: seq<Fleet>, moves: seq<Move>, k: nat, app: Id, h: Id)
    requires IsRun(run, moves) && k < |run|
    requires forall i :: 0 <= i < k ==> PinnedTo(moves[i], app, h)
    ensures AllAffined(run[k], run[0].rows, app, h)
  {
    hide Next;
    if k == 0 {
      assert forall id :: id in run[0].rows ==> run[0].rows[id].id == id;
    } else {
      hide AllAffined;
      hide PinnedTo;
      AffinityOverRuns(run, moves, k - 1, app, h);
      assert Next(run[k - 1], moves[k - 1], run[k]);
      NextStaysAffined(run[k - 1], moves[k - 1], run[k], run[0].rows, app, h);
    }
  }
}
