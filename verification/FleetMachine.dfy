/** Many hosts over one replica table, one store call at a time: every interleaving of reconcile
    passes, of actuation passes under the per-process lock, of boots that keep their own copy of the
    row, of probes, rescales and crashes (internal/usecase/fleet_orchestrator.go:139-141, 559-821,
    987-1059, 1220-1255; internal/usecase/fleet_replica_runtime.go:230-380). */
module FleetMachine {
  import opened Text
  import opened FleetTypes
  import opened SurplusOrder
  import opened FleetPass
  import opened FleetPassFacts
  import opened FleetOrchestrator
  import opened FleetSteps

  /** A BootReplica under way: the copy of the row it loaded, and whether it has written booting. */
  datatype Boot = Boot(row: Replica, saved: bool)

  /** A caller inside actuateScheduledOwned on some host, with the rows it still has to boot and the
      boot it is in. */
  datatype Worker = Worker(host: Id, todo: seq<Id>, boot: Option<Boot>)

  datatype Deed = Deed(host: Id, row: Id)

  /** holder has the callers inside actuateScheduledOwned. stamps remembers the host of every row ever created; boots and touched record which host
      booted a row and which host probed or tore one down. */
  datatype Fleet = Fleet(
    rows: Rows, desired: map<Id, nat>, holder: map<nat, Worker>, flights: map<nat, Flight>,
    stamps: map<Id, Option<Id>>, boots: seq<Deed>, touched: seq<Deed>)

  /** How a boot ends: resident and written, dead and written, or its last write did not land. */
  datatype BootEnd = CameUp | Died | NotWritten

  datatype Move =
    | List(p: nat, host: Id, app: Id, env: Env, listed: seq<Replica>)   // a pass loads its app and lists
    | Step(p: nat)                                   // one store call of a pass
    | Abandon(p: nat)
    | Rescale(scaled: Id, count: nat)
    | Enter(host: Id, caller: nat, todo: seq<Id>)    // lock taken, rows of this host listed
    | Load(caller: nat)                              // FindByID of the next row
    | SaveBooting(caller: nat, lands: bool)
    | FinishBoot(caller: nat, end: BootEnd)
    | Leave(caller: nat)                             // lock released, or the process died
    | Health(host: Id, row: Id, dead: bool)

  /** The row a call of the pass probes or tears down. */
  function Touched(f: Flight): seq<Deed> {
    match f.pc
    case Cleaning(i) =>
      if i < |f.listed| && f.listed[i].state == Dead && Owns(f.host, f.listed[i]) then [Deed(f.host, f.listed[i].id)] else []
    case Probing(i) => if i < |f.listed| && Probed(f.host, f.listed[i]) then [Deed(f.host, f.listed[i].id)] else []
    case Burying(i) => if i < |f.listed| then [Deed(f.host, f.listed[i].id)] else []
    case Placing(_) => []
    case Shedding(i) => if i < |DrainOf(f)| then [Deed(f.host, DrainOf(f)[i])] else []
  }

  predicate Creates(rows: Rows, f: Flight) { f.pc.Placing? && Places(rows, f, f.pc.n) }

  /** The table and the pass after one call of pass p. */
  function Stepped(s: Fleet, p: nat): Fleet
    requires p in s.flights
  {
    var f := s.flights[p];
    var (rows, pc) := Call(s.rows, f);
    s.(rows := rows,
       flights := if pc.None? then s.flights - {p} else s.flights[p := f.(pc := pc.value)],
       stamps := if Creates(s.rows, f) then s.stamps[f.env.freshIds[f.pc.n] := NthRow(f, f.pc.n).host] else s.stamps,
       touched := s.touched + Touched(f))
  }

  /** uuid.New: distinct ids nobody has or will have. */
  ghost predicate Fresh(s: Fleet, ids: seq<Id>) {
    && DistinctSeq(ids)
    && (forall id :: id in ids ==> id !in s.stamps)
    && (forall p, id :: p in s.flights && id in ids ==> id !in s.flights[p].env.freshIds)
  }

  function Listing(app: Id, count: nat, m: Move): Flight
    requires m.List?
  {
    Flight(m.host, App(app, count), m.env, m.listed, Cleaning(0))
  }

  predicate InBoot(s: Fleet, c: nat) { c in s.holder && s.holder[c].boot.Some? }

  function WithBoot(s: Fleet, c: nat, b: Option<Boot>): Fleet
    requires c in s.holder
  {
    s.(holder := s.holder[c := s.holder[c].(boot := b)])
  }

  /** actuateMu of that host's process is free. */
  predicate Unlocked(s: Fleet, host: Id) { forall c :: c in s.holder ==> s.holder[c].host != host }

  function EndState(end: BootEnd): ReplicaState { if end == CameUp then Resident else Dead }

  ghost predicate Next(s: Fleet, m: Move, s': Fleet) {
    match m
    case List(p, host, app, env, listed) =>
      && p !in s.flights && app in s.desired && Lists(s.rows, app, listed) && Fresh(s, env.freshIds)
      && s' == s.(flights := s.flights[p := Listing(app, s.desired[app], m)])
    case Step(p) => p in s.flights && s' == Stepped(s, p)
    case Abandon(p) => s' == s.(flights := s.flights - {p})
    case Rescale(app, count) => s' == s.(desired := s.desired[app := count])
    case Enter(host, caller, todo) =>
      && Unlocked(s, host) && caller !in s.holder && DistinctSeq(todo)
      && (forall id :: id in todo <==> id in s.rows && s.rows[id].host == Some(host) && s.rows[id].state == Scheduled)
      && s' == s.(holder := s.holder[caller := Worker(host, todo, None)])
    case Load(c) =>
      && c in s.holder && s.holder[c].boot.None? && s.holder[c].todo != []
      && (var w := s.holder[c];
          var id := w.todo[0];
          var boots := id in s.rows && s.rows[id].host == Some(w.host) && s.rows[id].state != Resident;
          s' == s.(holder := s.holder[c :=
                     Worker(w.host, w.todo[1..], if boots then Some(Boot(s.rows[id], false)) else None)]))
    case SaveBooting(c, lands) =>
      && InBoot(s, c) && !s.holder[c].boot.value.saved
      && (var copy := s.holder[c].boot.value.row.(state := Booting);
          s' == if lands
                then WithBoot(s, c, Some(Boot(copy, true))).(rows := s.rows[copy.id := copy], boots := s.boots + [Deed(s.holder[c].host, copy.id)])
                else WithBoot(s, c, None))
    case FinishBoot(c, end) =>
      && InBoot(s, c) && s.holder[c].boot.value.saved
      && (var copy := s.holder[c].boot.value.row.(state := EndState(end));
          s' == if end == NotWritten then WithBoot(s, c, None)
                else WithBoot(s, c, None).(rows := s.rows[copy.id := copy]))
    case Leave(c) => s' == s.(holder := s.holder - {c})
    case Health(host, row, dead) =>
      && row in s.rows && s.rows[row].host == Some(host) && s.rows[row].state == Resident
      && s' == s.(rows := if dead then s.rows[row := s.rows[row].(state := Dead)] else s.rows,
                  touched := s.touched + [Deed(host, row)])
  }

  /** A run from any state on. */
  ghost predicate Continues(run: seq<Fleet>, moves: seq<Move>) {
    |run| == |moves| + 1 && forall i :: 0 <= i < |moves| ==> Next(run[i], moves[i], run[i + 1])
  }

  ghost predicate Quiet(s: Fleet) {
    && WellKeyed(s.rows) && s.holder == map[] && s.flights == map[] && s.boots == [] && s.touched == []
    && s.stamps.Keys == s.rows.Keys && forall id :: id in s.rows ==> s.stamps[id] == s.rows[id].host
  }

  ghost predicate IsRun(run: seq<Fleet>, moves: seq<Move>) { Continues(run, moves) && Quiet(run[0]) }

  // ---------------------------------------------------------------- the invariant

  ghost predicate Stamped(s: Fleet, id: Id, host: Option<Id>) { id in s.stamps && s.stamps[id] == host }

  ghost predicate Keyed(s: Fleet) {
    WellKeyed(s.rows) && forall id :: id in s.rows ==> Stamped(s, id, s.rows[id].host)
  }

  ghost predicate Booted(s: Fleet, id: Id) {
    exists i :: 0 <= i < |s.boots| && s.boots[i].row == id
  }

  ghost predicate BootsOnce(s: Fleet) {
    && (forall i, j :: 0 <= i < j < |s.boots| ==> s.boots[i].row != s.boots[j].row)
    && (forall i :: 0 <= i < |s.boots| ==> Stamped(s, s.boots[i].row, Some(s.boots[i].host)))
    && (forall id :: Booted(s, id) && id in s.rows ==> s.rows[id].state != Scheduled)
  }

  ghost predicate InState(s: Fleet, id: Id, state: ReplicaState) { id in s.rows ==> s.rows[id].state == state }

  ghost predicate WaitingOk(s: Fleet, h: Id, id: Id) {
    Stamped(s, id, Some(h)) && !Booted(s, id) && InState(s, id, Scheduled)
  }

  /** A boot's row, if it is still there, is as the boot last wrote it. */
  ghost predicate BootOk(s: Fleet, h: Id, b: Boot) {
    && Stamped(s, b.row.id, Some(h)) && b.row.host == Some(h)
    && (Booted(s, b.row.id) <==> b.saved) && InState(s, b.row.id, if b.saved then Booting else Scheduled)
  }

  ghost predicate WorkerOk(s: Fleet, c: nat) {
    c in s.holder ==>
      var w := s.holder[c];
      && DistinctSeq(w.todo)
      && (forall i :: 0 <= i < |w.todo| ==> WaitingOk(s, w.host, w.todo[i]))
      && (w.boot.Some? ==> BootOk(s, w.host, w.boot.value) && w.boot.value.row.id !in w.todo)
  }

  /** At most one caller per host. */
  ghost predicate Locked(s: Fleet) {
    forall c, d :: c in s.holder && d in s.holder && c != d ==> s.holder[c].host != s.holder[d].host
  }

  ghost predicate TouchesOwn(s: Fleet) {
    forall i :: 0 <= i < |s.touched| ==> Stamped(s, s.touched[i].row, Some(s.touched[i].host))
  }

  /** Past booting: no boot of the row is under way and none will ever begin. */
  ghost predicate Grown(s: Fleet, id: Id) {
    && id in s.stamps
    && (id in s.rows ==> s.rows[id].state != Scheduled && s.rows[id].state != Booting)
    && (forall h :: h in s.holder ==> id !in s.holder[h].todo && (s.holder[h].boot.Some? ==> s.holder[h].boot.value.row.id != id))
  }

  /** And not counted again either. */
  ghost predicate Gone(s: Fleet, id: Id) {
    Grown(s, id) && (id in s.rows ==> !Occupies(s.rows[id].state))
  }

  function Settled(state: ReplicaState): bool { state != Scheduled && state != Booting }

  /** How much of its listing a pass has been through in the health loop, and how many rows it made. */
  function Checked(f: Flight): nat {
    match f.pc
    case Cleaning(_) => 0
    case Probing(i) => if i <= |f.listed| then i else |f.listed|
    case Burying(i) => if i < |f.listed| then i + 1 else |f.listed|
    case Placing(_) => |f.listed|
    case Shedding(_) => |f.listed|
  }

  function Used(f: Flight): nat { if f.pc.Placing? then f.pc.n else 0 }

  ghost predicate FlightOk(s: Fleet, f: Flight) {
    && DistinctIds(f.listed)
    && (forall i :: 0 <= i < |f.listed| ==> ListedOk(s, f, f.listed[i]))
    && (forall i :: 0 <= i < Checked(f) && Sickly(f, f.listed[i]) ==> Gone(s, f.listed[i].id))
    && (f.pc.Burying? && f.pc.i < |f.listed| ==> Sickly(f, f.listed[f.pc.i]))
    && DistinctSeq(f.env.freshIds) && Used(f) <= |f.env.freshIds|
    && (forall j :: Used(f) <= j < |f.env.freshIds| ==> f.env.freshIds[j] !in s.stamps)
    && (forall j :: 0 <= j < Used(f) ==> f.env.freshIds[j] in s.stamps)
  }

  ghost predicate ListedOk(s: Fleet, f: Flight, r: Replica) {
    Stamped(s, r.id, r.host) && r.app == f.app.id && (Settled(r.state) ==> Grown(s, r.id))
  }

  ghost predicate FlightsApart(s: Fleet) {
    forall p, q :: p in s.flights && q in s.flights && p != q ==>
      forall id :: id in s.flights[p].env.freshIds ==> id !in s.flights[q].env.freshIds
  }

  ghost predicate Inv(s: Fleet) {
    && Keyed(s) && BootsOnce(s) && TouchesOwn(s) && FlightsApart(s) && Locked(s)
    && (forall h :: WorkerOk(s, h))
    && (forall p :: p in s.flights ==> FlightOk(s, s.flights[p]))
  }
}
