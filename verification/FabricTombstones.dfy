/** What a deprovisioned scope guarantees, on which hosts, and exactly when; what a revived one comes
    back with (internal/usecase/fleet_network_fabric.go:104-305). */
module FabricTombstones {
  import opened Text
  import opened NetPlane
  import opened PolicyCompiler
  import opened FabricRuns

  predicate HasRest(ph: Phase) { ph.Listing? || ph.Resolving? || ph.Pushing? }

  /** The operation works on this network now or later. */
  ghost predicate Touches(ph: Phase, id: Id) {
    ph.n.id == id || (HasRest(ph) && exists i :: 0 <= i < |ph.rest| && ph.rest[i].id == id)
  }

  predicate TearsDown(ph: Phase) { ph.Dropping? || ph.Clearing? || ph.Marking? }

  /** An operation that will yet push a chain for this network. */
  ghost predicate Writes(ph: Phase, id: Id) { Touches(ph, id) && !ph.Creating? && !TearsDown(ph) }

  ghost predicate Tombstoned(w: World, id: Id) { id in w.networks && !w.networks[id].active }

  ghost predicate Active(w: World, id: Id) { id in w.networks && w.networks[id].active }

  /** The thread is a Deprovision of this network that has dropped its host's chain. */
  ghost predicate PastDrop(s: System, t: nat, id: Id) {
    t in s.threads && (s.threads[t].ph.Clearing? || s.threads[t].ph.Marking?) && s.threads[t].ph.n.id == id
  }

  /** No Deprovision of this network that has dropped its chain is under way beside an operation that
      will yet write the network; anything else may overlap. */
  ghost predicate NoConflict(s: System, id: Id) {
    forall t, u :: PastDrop(s, t, id) && u in s.threads ==> !Writes(s.threads[u].ph, id)
  }

  ghost predicate Peaceful(moves: seq<Move>, id: Id) {
    forall k :: 0 <= k <= |moves| ==> NoConflict(After(INIT, moves[..k]), id)
  }

  // ---------------------------------------------------------------- the invariant

  ghost predicate Fitting(w: World, th: Thread, id: Id) {
    && ((HasRest(th.ph) || th.ph.Wiping? || th.ph.Replacing?) ==> Active(w, id))
    && (th.ph.Creating? ==> th.ph.n.active)
    && (th.ph.Clearing? || th.ph.Marking? ==> Slot(th.host, id) !in w.chains)
    && (th.ph.Marking? ==> PoliciesOf(w, id) == [])
  }

  ghost predicate Tidy(s: System, id: Id) {
    && (Tombstoned(s.w, id) ==> PoliciesOf(s.w, id) == [])
    && forall t :: t in s.threads && Touches(s.threads[t].ph, id) ==> Fitting(s.w, s.threads[t], id)
  }

  ghost predicate SameAt(w: World, w': World, id: Id) {
    && (id in w.networks <==> id in w'.networks)
    && (id in w.networks ==> w.networks[id] == w'.networks[id])
    && PoliciesOf(w, id) == PoliciesOf(w', id)
    && (forall h :: Slot(h, id) in w.chains <==> Slot(h, id) in w'.chains)
    && (forall h :: Slot(h, id) in w.chains ==> w.chains[Slot(h, id)] == w'.chains[Slot(h, id)])
  }

  lemma AdvanceElsewhere(w: World, host: Id, ph: Phase, inv: Inventory, id: Id)
    requires ph.n.id != id
    ensures SameAt(w, Advance(w, host, ph, inv).0, id)
  {
    hide KeyTaken;
    hide Compile;
  }

  lemma RestShrinks(rest: seq<Network>, id: Id)
    requires NextSync(rest).Some? && Touches(NextSync(rest).value, id)
    ensures exists i :: 0 <= i < |rest| && rest[i].id == id
  {
    if rest[0].id != id {
      var i :| 0 <= i < |rest[1..]| && rest[1..][i].id == id;
      assert rest[i + 1].id == id;
    }
  }

  /** An operation never starts touching a network it did not touch, and only a creation turns into
      a write. */
  lemma TouchesLess(w: World, host: Id, ph: Phase, inv: Inventory, id: Id)
    requires Advance(w, host, ph, inv).1.Some? && Touches(Advance(w, host, ph, inv).1.value, id)
    ensures Touches(ph, id)
    ensures var ph' := Advance(w, host, ph, inv).1.value;
            && (TearsDown(ph') <==> TearsDown(ph)) && !ph'.Creating?
            && (ph.Creating? ==> id !in w.networks && ph.n.id == id)
  {
    hide KeyTaken;
    hide Compile;
    if ph.Pushing? {
      RestShrinks(ph.rest, id);
    }
  }

  lemma AdvanceHere(w: World, th: Thread, inv: Inventory, id: Id)
    requires Touches(th.ph, id) && Fitting(w, th, id)
    requires Tombstoned(w, id) ==> PoliciesOf(w, id) == []
    ensures var (w', ph') := Advance(w, th.host, th.ph, inv);
            && (Tombstoned(w', id) ==> PoliciesOf(w', id) == [])
            && (ph'.Some? && Touches(ph'.value, id) ==> Fitting(w', Thread(th.host, ph'.value), id))
  {
    hide Compile;
    hide KeyTaken;
  }

  /** Two operations that do not conflict on a network leave each other's footing alone. */
  lemma AdvanceBeside(w: World, th: Thread, inv: Inventory, other: Thread, id: Id)
    requires SoundPhase(w, other.ph) && Touches(other.ph, id) && Fitting(w, other, id)
    requires other.ph.Creating? || th.ph.Creating? || other.ph.Dropping? || th.ph.Dropping? || (TearsDown(other.ph) <==> TearsDown(th.ph))
    requires th.ph.n.id == id && Fitting(w, th, id)
    ensures Fitting(Advance(w, th.host, th.ph, inv).0, other, id)
  {
    hide Compile;
    hide KeyTaken;
    hide ValidPolicies;
    assert !other.ph.Creating? ==> id in w.networks;
  }

  lemma FittingElsewhere(w: World, w': World, th: Thread, id: Id)
    requires SameAt(w, w', id) && Fitting(w, th, id)
    ensures Fitting(w', th, id)
  {}

  lemma BeginFits(w: World, host: Id, req: Request, id: Id)
    requires SoundWorld(w) && Begin(w, req).Some? && Touches(Begin(w, req).value, id)
    ensures Fitting(w, Thread(host, Begin(w, req).value), id)
  {
    hide ValidPolicies;
    if req.Restore? {
      RestShrinks(FabricRuns.Rows(w, req.order), id);
    }
  }

  ghost predicate AllFitting(w: World, threads: map<nat, Thread>, id: Id) {
    forall u :: u in threads && Touches(threads[u].ph, id) ==> Fitting(w, threads[u], id)
  }

  lemma GoKeepsOthers(s: System, t: nat, inv: Inventory, id: Id)
    requires Sound(s) && t in s.threads && NoConflict(s, id) && Tidy(s, id)
    ensures AllFitting(Advance(s.w, s.threads[t].host, s.threads[t].ph, inv).0, s.threads - {t}, id)
  {
    hide Advance;
    hide Touches;
    hide Fitting;
    hide SoundWorld;
    hide SoundPhase;
    var th := s.threads[t];
    var w' := Advance(s.w, th.host, th.ph, inv).0;
    forall u | u in s.threads && Touches(s.threads[u].ph, id) ensures u != t ==> Fitting(w', s.threads[u], id) {
      if th.ph.n.id != id {
        AdvanceElsewhere(s.w, th.host, th.ph, inv, id);
        FittingElsewhere(s.w, w', s.threads[u], id);
      } else if u != t {
        TouchesOwn(th.ph, id);
        TeardownTouches(s.threads[u].ph, id);
        assert TearsDown(th.ph) && !th.ph.Dropping? ==> PastDrop(s, t, id);
        assert TearsDown(s.threads[u].ph) && !s.threads[u].ph.Dropping? ==> PastDrop(s, u, id);
        AdvanceBeside(s.w, th, inv, s.threads[u], id);
      }
    }
  }

  lemma TouchesOwn(ph: Phase, id: Id)
    ensures ph.n.id == id ==> Touches(ph, id)
  {}

  lemma TeardownTouches(ph: Phase, id: Id)
    ensures Touches(ph, id) && TearsDown(ph) ==> ph.n.id == id
  {}

  lemma SameTombstone(w: World, w': World, id: Id)
    requires SameAt(w, w', id)
    ensures Tombstoned(w, id) <==> Tombstoned(w', id)
    ensures PoliciesOf(w, id) == PoliciesOf(w', id)
  {}

  lemma GoTidy(s: System, t: nat, inv: Inventory, id: Id)
    requires Sound(s) && t in s.threads && NoConflict(s, id) && Tidy(s, id)
    ensures Tidy(Do(s, Go(t, inv)), id)
  {
    hide Advance;
    hide Touches;
    hide Fitting;
    hide Sound;
    hide NoConflict;
    hide Tombstoned;
    var th := s.threads[t];
    var (w', ph') := Advance(s.w, th.host, th.ph, inv);
    GoKeepsOthers(s, t, inv, id);
    assert AllFitting(w', s.threads - {t}, id);
    if Touches(th.ph, id) {
      AdvanceHere(s.w, th, inv, id);
    } else {
      TouchesOwn(th.ph, id);
      AdvanceElsewhere(s.w, th.host, th.ph, inv, id);
      SameTombstone(s.w, w', id);
      if ph'.Some? && Touches(ph'.value, id) {
        TouchesLess(s.w, th.host, th.ph, inv, id);
      }
    }
    forall u | u in s.threads && u != t && Touches(s.threads[u].ph, id) ensures Fitting(w', s.threads[u], id) {
      assert u in s.threads - {t};
    }
  }

  /** Losing or emptying chains of writers and rebooted hosts keeps every operation's footing. */
  lemma FewerChains(w: World, chains: map<Slot, seq<Rule>>, th: Thread, id: Id)
    requires Fitting(w, th, id)
    requires forall slot :: slot in chains && slot.net == id ==> slot in w.chains || !(th.ph.Clearing? || th.ph.Marking?)
    ensures Fitting(w.(chains := chains), th, id)
  {}

  lemma SpoilTidy(s: System, t: nat, id: Id)
    requires NoConflict(s, id) && Tidy(s, id)
    ensures Tidy(Do(s, Spoil(t)), id)
  {
    hide Advance;
    hide Begin;
    if t in s.threads && s.threads[t].ph.Pushing? {
      var s' := Do(s, Spoil(t));
      forall u | u in s'.threads && Touches(s'.threads[u].ph, id) ensures Fitting(s'.w, s'.threads[u], id) {
        assert s.threads[t].ph.n.id == id ==> Writes(s.threads[t].ph, id);
        assert TearsDown(s.threads[u].ph) && !s.threads[u].ph.Dropping? ==> PastDrop(s, u, id);
        FewerChains(s.w, s'.w.chains, s.threads[u], id);
      }
    }
  }

  lemma RebootTidy(s: System, host: Id, id: Id)
    requires Tidy(s, id)
    ensures Tidy(Do(s, Reboot(host)), id)
  {
    hide Advance;
    hide Begin;
    var s' := Do(s, Reboot(host));
    forall u | u in s'.threads && Touches(s'.threads[u].ph, id) ensures Fitting(s'.w, s'.threads[u], id) {
      FewerChains(s.w, s'.w.chains, s.threads[u], id);
    }
  }

  lemma DoTidy(s: System, m: Move, id: Id)
    requires Sound(s) && NoConflict(s, id) && Tidy(s, id)
    ensures Tidy(Do(s, m), id)
  {
    match m
    case Go(t, inv) =>
      if t in s.threads {
        hide Do;
        GoTidy(s, t, inv, id);
      }
    case Spoil(t) => hide Do; SpoilTidy(s, t, id);
    case Reboot(host) => hide Do; RebootTidy(s, host, id);
    case Stop(t) => hide Advance; hide Touches; hide Fitting;
    case Start(t, host, req) =>
      hide Advance;
      hide Begin;
      hide Touches;
      hide Fitting;
      if Begin(s.w, req).Some? && Touches(Begin(s.w, req).value, id) {
        BeginFits(s.w, host, req, id);
      }
  }

  lemma {:induction false} AfterTidy(moves: seq<Move>, id: Id)
    requires forall k :: 0 <= k < |moves| ==> NoConflict(After(INIT, moves[..k]), id)
    ensures Sound(After(INIT, moves)) && Tidy(After(INIT, moves), id)
  {
    hide Do;
    hide Sound;
    hide NoConflict;
    InitSound();
    AfterSound(INIT, moves);
    if moves == [] {
      assert INIT.threads == map[];
    } else {
      var k := |moves| - 1;
      assert forall j :: 0 <= j < k ==> moves[..k][..j] == moves[..j];
      AfterTidy(moves[..k], id);
      AfterSound(INIT, moves[..k]);
      DoTidy(After(INIT, moves[..k]), moves[k], id);
    }
  }

  /** In every run in which no Deprovision of this network, once it has dropped its chain, overlaps a
      write to it, whatever else overlaps and wherever operations stop: while the network is
      deprovisioned it has no policy. */
  lemma TombstonesHaveNoPolicy(moves: seq<Move>, id: Id)
    requires Peaceful(moves, id)
    ensures Tombstoned(After(INIT, moves).w, id) ==> PoliciesOf(After(INIT, moves).w, id) == []
  {
    hide After;
    hide NoConflict;
    AfterTidy(moves, id);
  }

  // ---------------------------------------------------------------- which hosts a tombstone is bare on

  /** The move takes this host's chain of this network away. */
  ghost predicate Unloads(s: System, m: Move, h: Id, id: Id) {
    || m == Reboot(h)
    || (m.Go? && m.t in s.threads && s.threads[m.t].host == h && s.threads[m.t].ph.Dropping? && s.threads[m.t].ph.n.id == id)
  }

  /** While a network is tombstoned its chains only go, one host at a time, and never change. */
  lemma ChainsWhileTombstoned(s: System, m: Move, h: Id, id: Id)
    requires Tidy(s, id) && Tombstoned(s.w, id)
    ensures var (w, w', slot) := (s.w, Do(s, m).w, Slot(h, id));
            && (slot in w'.chains <==> slot in w.chains && !Unloads(s, m, h, id))
            && (slot in w'.chains ==> w'.chains[slot] == w.chains[slot])
  {
    hide Begin;
    hide Compile;
    hide KeyTaken;
    if (m.Go? || m.Spoil?) && m.t in s.threads {
      TouchesOwn(s.threads[m.t].ph, id);
    }
  }

  ghost predicate KeepsTombstone(first: seq<Move>, more: seq<Move>, id: Id) {
    forall k :: 0 <= k <= |more| ==> Tombstoned(After(INIT, first + more[..k]).w, id)
  }

  ghost predicate NeverUnloads(first: seq<Move>, more: seq<Move>, h: Id, id: Id) {
    forall k :: 0 <= k < |more| ==> !Unloads(After(INIT, first + more[..k]), more[k], h, id)
  }

  lemma PeacefulPrefix(moves: seq<Move>, k: nat, id: Id)
    requires Peaceful(moves, id) && k <= |moves|
    ensures Peaceful(moves[..k], id)
  {
    hide After;
    hide NoConflict;
    assert forall j :: 0 <= j <= k ==> moves[..k][..j] == moves[..j];
  }

  lemma {:induction false} StaysLoaded(first: seq<Move>, more: seq<Move>, h: Id, id: Id)
    requires Peaceful(first + more, id) && KeepsTombstone(first, more, id)
    ensures var (w, w', slot) := (After(INIT, first).w, After(INIT, first + more).w, Slot(h, id));
            && (slot in w'.chains <==> slot in w.chains && NeverUnloads(first, more, h, id))
            && (slot in w'.chains ==> w'.chains[slot] == w.chains[slot])
  {
    hide After;
    hide NoConflict;
    hide Unloads;
    hide Tombstoned;
    if more == [] {
      assert first + more == first;
    } else {
      var k := |more| - 1;
      var (front, m) := (more[..k], more[k]);
      var s := After(INIT, first + front);
      assert (first + more)[..|first| + k] == first + front;
      PeacefulPrefix(first + more, |first| + k, id);
      assert forall j :: 0 <= j <= k ==> front[..j] == more[..j];
      StaysLoaded(first, front, h, id);
      AfterTidy(first + front, id);
      ChainsWhileTombstoned(s, m, h, id);
      AfterSnoc(INIT, first + front, m);
      assert first + front + [m] == first + more;
      assert NeverUnloads(first, more, h, id) <==> (NeverUnloads(first, front, h, id) && !Unloads(s, m, h, id));
    }
  }

  ghost predicate Marks(s: System, m: Move, d: Id, id: Id) {
    m.Go? && m.t in s.threads && s.threads[m.t].host == d && s.threads[m.t].ph.Marking? && s.threads[m.t].ph.n.id == id
  }

  lemma MarkStep(s: System, m: Move, d: Id, id: Id)
    requires Tidy(s, id) && Marks(s, m, d, id)
    ensures Do(s, m).w.chains == s.w.chains && Slot(d, id) !in s.w.chains
  {
    hide Compile;
    hide KeyTaken;
    TouchesOwn(s.threads[m.t].ph, id);
  }

  /** On which hosts a tombstone is bare, exactly. Host d completes a Deprovision; as long as the
      network then stays deprovisioned, d has no chain for it, and any other host h has one if and
      only if h had one when d finished and has neither dropped it nor rebooted since. */
  lemma TombstoneChainsExact(before: seq<Move>, m: Move, after: seq<Move>, d: Id, h: Id, id: Id)
    requires Marks(After(INIT, before), m, d, id)
    requires Peaceful(before + [m] + after, id) && KeepsTombstone(before + [m], after, id)
    ensures var (w, w', slot) := (After(INIT, before).w, After(INIT, before + [m] + after).w, Slot(h, id));
            && Slot(d, id) !in w'.chains && PoliciesOf(w', id) == []
            && (slot in w'.chains <==> slot in w.chains && NeverUnloads(before + [m], after, h, id))
            && (slot in w'.chains ==> w'.chains[slot] == w.chains[slot])
  {
    hide After;
    hide NoConflict;
    hide Marks;
    hide NeverUnloads;
    var first := before + [m];
    assert (first + after)[..|before|] == before;
    PeacefulPrefix(first + after, |before|, id);
    AfterTidy(before, id);
    AfterSnoc(INIT, before, m);
    MarkStep(After(INIT, before), m, d, id);
    StaysLoaded(first, after, h, id);
    StaysLoaded(first, after, d, id);
    TombstonesHaveNoPolicy(first + after, id);
    assert after[..|after|] == after;
  }

  // ---------------------------------------------------------------- revival

  /** Nothing in the tables grants reach, every chain is empty or one of those left over, and no
      operation under way is about to push another. */
  ghost predicate Quiet(s: System, was: World, id: Id) {
    && PoliciesOf(s.w, id) == []
    && (forall h :: Slot(h, id) in s.w.chains ==> Leftover(s.w, was, Slot(h, id)))
    && forall t :: t in s.threads && s.threads[t].ph.n.id == id ==> QuietPhase(s.threads[t].ph)
  }

  ghost predicate Leftover(w: World, was: World, slot: Slot)
    requires slot in w.chains
  {
    w.chains[slot] == [] || (slot in was.chains && w.chains[slot] == was.chains[slot])
  }

  predicate QuietPhase(ph: Phase) {
    (ph.Resolving? ==> ph.ps == []) && (ph.Pushing? ==> ph.rules == [])
  }

  /** The move in which an ApplyPolicies on this network writes its policy set. */
  ghost predicate Grants(s: System, m: Move, id: Id) {
    m.Go? && m.t in s.threads && s.threads[m.t].ph.Replacing? && s.threads[m.t].ph.n.id == id
  }

  lemma AdvanceQuiet(w: World, host: Id, ph: Phase, inv: Inventory, was: World, id: Id)
    requires PoliciesOf(w, id) == [] && (forall h :: Slot(h, id) in w.chains ==> Leftover(w, was, Slot(h, id)))
    requires ph.n.id == id ==> QuietPhase(ph) && !ph.Replacing?
    ensures var (w', ph') := Advance(w, host, ph, inv);
            && PoliciesOf(w', id) == [] && (forall h :: Slot(h, id) in w'.chains ==> Leftover(w', was, Slot(h, id)))
            && (ph'.Some? && ph'.value.n.id == id ==> QuietPhase(ph'.value))
  {
    hide KeyTaken;
    assert Compile(inv, ph.n, []) == [];
    hide Compile;
  }

  lemma BeginQuiet(w: World, req: Request)
    requires Begin(w, req).Some?
    ensures QuietPhase(Begin(w, req).value)
  {}

  lemma DoQuiet(s: System, m: Move, was: World, id: Id)
    requires Quiet(s, was, id) && !Grants(s, m, id)
    ensures Quiet(Do(s, m), was, id)
  {
    hide Begin;
    hide Advance;
    hide QuietPhase;
    if m.Go? && m.t in s.threads {
      AdvanceQuiet(s.w, s.threads[m.t].host, s.threads[m.t].ph, m.inv, was, id);
    } else if m.Start? && Begin(s.w, m.req).Some? {
      BeginQuiet(s.w, m.req);
    }
  }

  lemma TombstoneIsQuiet(s: System, id: Id)
    requires Tidy(s, id) && Tombstoned(s.w, id)
    ensures Quiet(s, s.w, id)
  {}

  lemma {:induction false} StaysQuiet(s: System, moves: seq<Move>, was: World, id: Id)
    requires Quiet(s, was, id)
    requires forall k :: 0 <= k < |moves| ==> !Grants(After(s, moves[..k]), moves[k], id)
    ensures Quiet(After(s, moves), was, id)
  {
    hide Do;
    hide Quiet;
    hide Grants;
    if moves != [] {
      var k := |moves| - 1;
      assert forall j :: 0 <= j < k ==> moves[..k][..j] == moves[..j];
      StaysQuiet(s, moves[..k], was, id);
      DoQuiet(After(s, moves[..k]), moves[k], was, id);
    }
  }

  /** A revived scope comes back without reach: from any moment at which a network is deprovisioned
      (no Deprovision of it past its drop having overlapped a write so far), through any later revivals, syncs,
      restores, teardowns and stops in any interleaving on any hosts, it has no policy until an
      ApplyPolicies on it writes one, and each host's chain is absent, empty, or the very one that
      host had kept on the tombstone. */
  lemma RevivedWithoutReach(before: seq<Move>, after: seq<Move>, id: Id)
    requires Peaceful(before, id) && Tombstoned(After(INIT, before).w, id)
    requires forall k :: 0 <= k < |after| ==> !Grants(After(INIT, before + after[..k]), after[k], id)
    ensures var (w0, w) := (After(INIT, before).w, After(INIT, before + after).w);
            && PoliciesOf(w, id) == []
            && forall h :: Slot(h, id) in w.chains ==> Leftover(w, w0, Slot(h, id))
  {
    hide Do;
    hide Grants;
    hide After;
    hide NoConflict;
    AfterTidy(before, id);
    var s := After(INIT, before);
    TombstoneIsQuiet(s, id);
    forall k | 0 <= k < |after| ensures !Grants(After(s, after[..k]), after[k], id) {
      AfterConcat(INIT, before, after[..k]);
    }
    StaysQuiet(s, after, s.w, id);
    AfterConcat(INIT, before, after);
  }
}
