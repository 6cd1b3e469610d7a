/** What one reconcile pass can and cannot do to the replica table. */
module FleetPassFacts {
  import opened Text
  import opened FleetTypes
  import opened SurplusOrder
  import opened FleetPass

  // ---------------------------------------------------------------- sets of rows

  /** The rows of an app that count against its capacity. */
  ghost function OccIds(rows: Rows, app: Id): set<Id> {
    set id | id in rows && rows[id].app == app
             && (rows[id].state == Scheduled || rows[id].state == Booting || rows[id].state == Resident)
  }

  /** Residents this host found dead and could record as dead. */
  ghost function SickSet(self: Id, app: Id, env: Env, rows: Rows): set<Id> {
    set id | id in rows && rows[id].app == app && rows[id].state == Resident && rows[id].host == Some(self)
             && id in env.probes && env.probes[id] == Unhealthy
  }

  /** Residents this host found dead without being able to record it. */
  ghost function UnsavedSet(self: Id, app: Id, env: Env, rows: Rows): set<Id> {
    set id | id in rows && rows[id].app == app && rows[id].state == Resident && rows[id].host == Some(self)
             && id in env.probes && env.probes[id] == Unsaved
  }

  ghost predicate DistinctIds(s: seq<Replica>) {
    forall i, j :: 0 <= i < j < |s| ==> s[i].id != s[j].id
  }

  ghost function IdSet(s: seq<Replica>): set<Id> { set r | r in s :: r.id }

  lemma {:induction false} DistinctCount(s: seq<Replica>)
    requires DistinctIds(s)
    ensures |IdSet(s)| == |s|
  {
    hide DistinctIds;
    if s != [] {
      HeadApart(s);
      DistinctCount(s[1..]);
    }
  }

  lemma HeadApart(s: seq<Replica>)
    requires DistinctIds(s) && s != []
    ensures DistinctIds(s[1..])
    ensures s[0].id !in IdSet(s[1..]) && IdSet(s) == {s[0].id} + IdSet(s[1..])
  {
    var tail := s[1..];
    forall r | r in tail ensures r.id != s[0].id {
      var j :| 0 <= j < |tail| && tail[j] == r;
      assert s[j + 1] == r;
    }
    assert s == [s[0]] + tail;
    assert forall r :: r in s <==> r == s[0] || r in tail;
  }

  lemma {:induction false} OccupantsDistinct(s: seq<Replica>)
    requires DistinctIds(s)
    ensures DistinctIds(Occupants(s))
  {
    if s != [] {
      OccupantsDistinct(s[1..]);
      var rest := Occupants(s[1..]);
      forall j | 0 <= j < |rest| ensures rest[j].id != s[0].id {
        assert rest[j] in rest;
        var k :| 0 <= k < |s[1..]| && s[1..][k] == rest[j];
        assert s[k + 1] == rest[j];
      }
    }
  }

  lemma {:induction false} LocalDistinct(self: Id, s: seq<Replica>)
    requires DistinctIds(s)
    ensures DistinctIds(Local(self, s))
  {
    if s != [] {
      LocalDistinct(self, s[1..]);
      var rest := Local(self, s[1..]);
      forall j | 0 <= j < |rest| ensures rest[j].id != s[0].id {
        assert rest[j] in rest;
        var k :| 0 <= k < |s[1..]| && s[1..][k] == rest[j];
        assert s[k + 1] == rest[j];
      }
    }
  }

  // ---------------------------------------------------------------- the count the pass sees

  lemma CleanedOccupants(self: Id, app: Id, env: Env, rows: Rows)
    requires WellKeyed(rows)
    ensures OccIds(Cleaned(self, app, env, rows), app) == OccIds(rows, app) - SickSet(self, app, env, rows)
  {}

  lemma CopiesDistinct(self: Id, env: Env, rows: Rows, app: Id, listed: seq<Replica>)
    requires WellKeyed(rows) && Lists(rows, app, listed)
    ensures DistinctIds(LocalCopies(self, env, listed))
  {}

  /** The pass counts the table's occupants less the rows it just found dead, recorded or not. */
  ghost function SeenIds(self: Id, app: Id, env: Env, rows: Rows): set<Id> {
    OccIds(rows, app) - SickSet(self, app, env, rows) - UnsavedSet(self, app, env, rows)
  }

  lemma SeenRows(self: Id, app: Id, env: Env, rows: Rows, listed: seq<Replica>)
    requires WellKeyed(rows) && Lists(rows, app, listed)
    ensures forall r :: r in LocalCopies(self, env, listed) && Occupies(r.state) ==>
              r.id in SeenIds(self, app, env, rows) && rows[r.id] == r
    ensures forall id :: id in SeenIds(self, app, env, rows) ==>
              rows[id] in LocalCopies(self, env, listed) && Occupies(rows[id].state)
  {
    var copies := LocalCopies(self, env, listed);
    forall r | r in copies && Occupies(r.state) ensures r.id in SeenIds(self, app, env, rows) && rows[r.id] == r {
      var i :| 0 <= i < |copies| && copies[i] == r;
      assert listed[i] in listed;
    }
    forall id | id in SeenIds(self, app, env, rows) ensures rows[id] in copies {
      assert rows[id] in listed;
      var i :| 0 <= i < |listed| && listed[i] == rows[id];
      assert copies[i] == rows[id];
    }
  }

  lemma FoundDead(self: Id, app: Id, env: Env, rows: Rows)
    ensures SickSet(self, app, env, rows) <= OccIds(rows, app) <= rows.Keys
    ensures UnsavedSet(self, app, env, rows) <= OccIds(rows, app) - SickSet(self, app, env, rows)
  {}

  lemma OccupantIds(self: Id, app: Id, env: Env, rows: Rows, listed: seq<Replica>)
    requires WellKeyed(rows) && Lists(rows, app, listed)
    ensures var occupants := Occupants(LocalCopies(self, env, listed));
            && (forall r :: r in occupants ==> r.id in SeenIds(self, app, env, rows) && rows[r.id] == r)
            && (forall id :: id in SeenIds(self, app, env, rows) ==> rows[id] in occupants)
            && IdSet(occupants) == SeenIds(self, app, env, rows)
  {
    hide LocalCopies;
    hide OccIds;
    hide SickSet;
    hide UnsavedSet;
    hide Lists;
    var occupants := Occupants(LocalCopies(self, env, listed));
    FoundDead(self, app, env, rows);
    SeenRows(self, app, env, rows, listed);
    hide SeenIds;
    forall id | id in SeenIds(self, app, env, rows) ensures id in IdSet(occupants) {
      assert rows[id] in occupants;
    }
  }

  lemma OccupantsCount(self: Id, app: Id, env: Env, rows: Rows, listed: seq<Replica>)
    requires WellKeyed(rows) && Lists(rows, app, listed)
    ensures var occupants := Occupants(LocalCopies(self, env, listed));
            && DistinctIds(occupants)
            && (forall r :: r in occupants ==> r.id in SeenIds(self, app, env, rows) && rows[r.id] == r)
            && (forall id :: id in SeenIds(self, app, env, rows) ==> rows[id] in occupants)
            && |occupants| == |SeenIds(self, app, env, rows)|
            && |occupants| == |OccIds(rows, app)| - |SickSet(self, app, env, rows)| - |UnsavedSet(self, app, env, rows)|
  {
    hide LocalCopies;
    hide Occupants;
    hide OccIds;
    hide SickSet;
    hide UnsavedSet;
    hide Lists;
    hide WellKeyed;
    hide DistinctIds;
    var copies := LocalCopies(self, env, listed);
    CopiesDistinct(self, env, rows, app, listed);
    OccupantsDistinct(copies);
    DistinctCount(Occupants(copies));
    OccupantIds(self, app, env, rows, listed);
    FoundDead(self, app, env, rows);
    SubsetSize(SickSet(self, app, env, rows), OccIds(rows, app));
    SubsetSize(UnsavedSet(self, app, env, rows), OccIds(rows, app) - SickSet(self, app, env, rows));
  }

  // ---------------------------------------------------------------- placement

  ghost predicate Extends(rows: Rows, rows': Rows) {
    forall id :: id in rows ==> id in rows' && rows'[id] == rows[id]
  }

  /** The row went where one of the scheduler's answers sent it, under a fresh id, dated now. */
  ghost predicate PickedFor(env: Env, r: Replica) {
    r.host.Some? && r.id in env.freshIds && r.createdAt == env.now && Host(r.host.value) in env.picks
  }

  ghost predicate OnlyPlaces(app: App, env: Env, rows: Rows, rows': Rows) {
    && Extends(rows, rows')
    && (forall id :: id in rows' && id !in rows ==>
          && rows'[id].app == app.id && rows'[id].state == Scheduled && PickedFor(env, rows'[id])
          && (PinOf(env).Some? ==> rows'[id].host == PinOf(env)))
  }

  /** Placement only adds scheduled rows of this app, each stamped with a host the scheduler
      named, which is the affinity host when the app's volumes agree on one. */
  lemma {:induction false} PlaceFacts(app: App, env: Env, rows: Rows, n: nat, shortfall: nat)
    requires n <= shortfall && WellKeyed(rows)
    ensures var out := Place(app, env, rows, n, shortfall);
            && WellKeyed(out.rows) && OnlyPlaces(app, env, rows, out.rows)
            && |OccIds(out.rows, app.id)| <= |OccIds(rows, app.id)| + (shortfall - n)
    decreases shortfall - n
  {
    hide OccIds;
    hide OnlyPlaces;
    assert OnlyPlaces(app, env, rows, rows) by { NothingPlaced(app, env, rows); }
    if n < shortfall && n < |env.picks| && n < |env.freshIds| && env.picks[n].Host? && env.freshIds[n] !in rows
       && (PinOf(env).Some? ==> env.picks[n].host == PinOf(env).value) {
      var rows' := rows[env.freshIds[n] := NewRow(app, env, n, env.picks[n].host)];
      PlaceFacts(app, env, rows', n + 1, shortfall);
      OneMorePlaced(app, env, rows, NewRow(app, env, n, env.picks[n].host), Place(app, env, rows', n + 1, shortfall).rows);
    }
  }

  lemma NothingPlaced(app: App, env: Env, rows: Rows)
    ensures OnlyPlaces(app, env, rows, rows)
  {}

  lemma OneMorePlaced(app: App, env: Env, rows: Rows, r: Replica, out: Rows)
    requires r.id !in rows && r.app == app.id && r.state == Scheduled && PickedFor(env, r)
    requires PinOf(env).Some? ==> r.host == PinOf(env)
    requires OnlyPlaces(app, env, rows[r.id := r], out)
    ensures OnlyPlaces(app, env, rows, out)
    ensures |OccIds(rows[r.id := r], app.id)| == |OccIds(rows, app.id)| + 1
  {
    var rows' := rows[r.id := r];
    assert OccIds(rows', app.id) == OccIds(rows, app.id) + {r.id};
    assert forall id :: id in rows ==> id in rows' && rows'[id] == rows[id];
  }

  lemma {:induction false} PlaceUsesFreshIds(app: App, env: Env, rows: Rows, n: nat, shortfall: nat)
    requires n <= shortfall
    ensures forall id :: id in Place(app, env, rows, n, shortfall).rows ==> id in rows || id in env.freshIds
    decreases shortfall - n
  {
    if n < shortfall && n < |env.picks| && n < |env.freshIds| && env.picks[n].Host? && env.freshIds[n] !in rows {
      PlaceUsesFreshIds(app, env, rows[env.freshIds[n] := NewRow(app, env, n, env.picks[n].host)], n + 1, shortfall);
    }
  }

  /** The volumes, if any, allow placement: no dead pinned host, a sound backing file, an affinity
      the scheduler honours. */
  ghost predicate VolumesAllow(env: Env) {
    env.volumes ==>
      && !(env.affinityFirst.Pinned? && env.affinityDown) && env.placeable && !env.affinity.AffinityBroken?
      && (env.affinity.Pinned? ==> forall n :: 0 <= n < |env.picks| ==> env.picks[n] == Host(env.affinity.host))
  }

  /** Everything the pass asks for works: teardowns, scheduler, inserts, volumes. */
  ghost predicate Cooperative(app: App, env: Env, rows: Rows) {
    && env.stuck == {} && VolumesAllow(env) && env.refusedCreates == {}
    && |env.picks| >= app.desired && |env.freshIds| >= app.desired
    && (forall n :: 0 <= n < |env.picks| ==> env.picks[n].Host?)
    && (forall n :: 0 <= n < |env.freshIds| ==> env.freshIds[n] !in rows)
    && (forall m, n :: 0 <= m < n < |env.freshIds| ==> env.freshIds[m] != env.freshIds[n])
  }

  lemma {:induction false} PlaceAll(app: App, env: Env, rows: Rows, n: nat, shortfall: nat)
    requires n <= shortfall <= app.desired && WellKeyed(rows)
    requires VolumesAllow(env) && env.refusedCreates == {} && |env.picks| >= app.desired && |env.freshIds| >= app.desired
    requires forall k :: 0 <= k < |env.picks| ==> env.picks[k].Host?
    requires forall k :: n <= k < |env.freshIds| ==> env.freshIds[k] !in rows
    requires forall k, l :: 0 <= k < l < |env.freshIds| ==> env.freshIds[k] != env.freshIds[l]
    ensures Place(app, env, rows, n, shortfall).error.None?
    ensures |OccIds(Place(app, env, rows, n, shortfall).rows, app.id)| == |OccIds(rows, app.id)| + (shortfall - n)
    decreases shortfall - n
  {
    hide OccIds;
    if n < shortfall {
      var rows' := rows[env.freshIds[n] := NewRow(app, env, n, env.picks[n].host)];
      NothingPlaced(app, env, rows');
      OneMorePlaced(app, env, rows, NewRow(app, env, n, env.picks[n].host), rows');
      PlaceAll(app, env, rows', n + 1, shortfall);
    }
  }

  // ---------------------------------------------------------------- draining

  ghost predicate DistinctSeq(s: seq<Id>) { forall i, j :: 0 <= i < j < |s| ==> s[i] != s[j] }

  ghost function Members(s: seq<Id>): set<Id> { set x | x in s }

  lemma {:induction false} DistinctMembers(s: seq<Id>)
    requires DistinctSeq(s)
    ensures |Members(s)| == |s|
  {
    if s != [] {
      var tail := s[1..];
      assert DistinctSeq(tail) && s[0] !in tail && s == [s[0]] + tail;
      DistinctMembers(tail);
      assert Members(s) == {s[0]} + Members(tail);
    }
  }

  lemma {:induction false} InsertDistinct(s: seq<Replica>, x: Replica)
    requires DistinctIds(s) && forall r :: r in s ==> r.id != x.id
    ensures DistinctIds(InsertStable(s, x))
    ensures forall r :: r in InsertStable(s, x) ==> r in s || r == x
  {
    if s != [] && !DrainsBefore(x, s[0]) {
      InsertDistinct(s[1..], x);
      var rest := InsertStable(s[1..], x);
      forall j | 0 <= j < |rest| ensures rest[j].id != s[0].id {
        assert rest[j] in rest;
      }
    }
  }

  lemma {:induction false} OrderedDistinct(s: seq<Replica>)
    requires DistinctIds(s)
    ensures DistinctIds(Order(s))
  {
    if s != [] {
      var n := |s| - 1;
      OrderedDistinct(s[..n]);
      OrderSorts(s[..n]);
      forall r | r in Order(s[..n]) ensures r.id != s[n].id {
        assert r in s[..n];
      }
      InsertDistinct(Order(s[..n]), s[n]);
    }
  }

  lemma DrainDistinct(ordered: seq<Replica>, m: nat)
    requires DistinctIds(ordered) && m <= |ordered|
    ensures DistinctSeq(IdsOf(ordered[..m]))
  {}

  /** A surplus pass attempts exactly min(occupying - desired, local) distinct teardowns, of this
      host's own occupants only. It drains a row that serves only when no pending row of this host is spared,
      and of rows alike in this the newest first. */
  lemma DrainListFacts(self: Id, occupants: seq<Replica>, desired: nat)
    requires |occupants| > desired && DistinctIds(occupants)
    ensures var drain := DrainList(self, occupants, desired);
            && |drain| == (if |occupants| - desired < |Local(self, occupants)| then |occupants| - desired else |Local(self, occupants)|)
            && DistinctSeq(drain)
            && (|drain| == |Local(self, occupants)| ==>
                  forall r :: r in occupants && Owns(self, r) ==> r.id in drain)
            && (forall id :: id in drain ==> exists r :: r in occupants && Owns(self, r) && r.id == id)
            && (forall r, kept :: (r in occupants && kept in occupants && Owns(self, kept)
                                   && r.id in drain && kept.id !in drain) ==> GoesFirst(r, kept))
  {
    hide DrainsBefore;
    hide Order;
    hide Local;
    hide DistinctIds;
    var mine := Local(self, occupants);
    LocalDistinct(self, occupants);
    OrderSorts(mine);
    OrderedDistinct(mine);
    var ordered := Order(mine);
    var m := Min(|occupants| - desired, |ordered|);
    var drain := DrainList(self, occupants, desired);
    assert DistinctSeq(drain) by { assert DistinctIds(ordered); DrainDistinct(ordered, m); }
    forall id | id in drain ensures exists r :: r in occupants && Owns(self, r) && r.id == id {
      var i :| 0 <= i < |drain| && drain[i] == id;
      assert ordered[i] in ordered && ordered[i] in mine;
    }
    forall q | 0 <= q < m ensures ordered[q].id in drain {
      assert drain[q] == ordered[q].id;
    }
    if m == |ordered| {
      forall r | r in occupants && Owns(self, r) ensures r.id in drain {
        assert r in mine && r in ordered;
        var k :| 0 <= k < |ordered| && ordered[k] == r;
        assert drain[k] == r.id;
      }
    }
    forall r, kept | r in occupants && kept in occupants && Owns(self, kept) && r.id in drain && kept.id !in drain
      ensures GoesFirst(r, kept)
    {
      DrainRespectsOrder(self, occupants, desired, r, kept);
    }
  }

  lemma DrainRespectsOrder(self: Id, occupants: seq<Replica>, desired: nat, r: Replica, kept: Replica)
    requires |occupants| > desired && DistinctIds(occupants)
    requires r in occupants && kept in occupants && Owns(self, kept)
    requires r.id in DrainList(self, occupants, desired) && kept.id !in DrainList(self, occupants, desired)
    ensures GoesFirst(r, kept)
  {
    hide DrainsBefore;
    hide Local;
    hide Order;
    var mine := Local(self, occupants);
    OrderSorts(mine);
    var ordered := Order(mine);
    var drain := DrainList(self, occupants, desired);
    var i :| 0 <= i < |drain| && drain[i] == r.id;
    assert kept in mine && kept in ordered;
    var k :| 0 <= k < |ordered| && ordered[k] == kept;
    assert forall q :: 0 <= q < |drain| ==> drain[q] == ordered[q].id && ordered[q].id in drain;
    assert k >= |drain|;
    assert ordered[i] in ordered && ordered[i] in mine && ordered[i] in occupants;
    SameIdSameRow(occupants, ordered[i], r);
  }

  lemma SameIdSameRow(s: seq<Replica>, a: Replica, b: Replica)
    requires DistinctIds(s) && a in s && b in s && a.id == b.id
    ensures a == b
  {}

  lemma DrainedOccupants(env: Env, rows: Rows, app: Id, drain: seq<Id>)
    requires forall id :: id in drain ==> id in OccIds(rows, app)
    requires DistinctSeq(drain)
    ensures OccIds(Drained(env, rows, drain), app) <= OccIds(rows, app)
    ensures |OccIds(rows, app)| - |drain| <= |OccIds(Drained(env, rows, drain), app)| <= |OccIds(rows, app)|
    ensures env.stuck == {} ==> |OccIds(Drained(env, rows, drain), app)| == |OccIds(rows, app)| - |drain|
  {
    var gone := Members(drain) - env.stuck;
    DistinctMembers(drain);
    assert OccIds(Drained(env, rows, drain), app) == OccIds(rows, app) - gone;
    SubsetSize(gone, OccIds(rows, app));
    SubsetSize(gone, Members(drain));
    assert env.stuck == {} ==> gone == Members(drain);
  }
}
