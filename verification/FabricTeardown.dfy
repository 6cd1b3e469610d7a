/** Exactly when a Deprovision leaves nothing behind: the condition on a state under which no way of
    letting its operations run on can leave a deprovisioned network with a policy or, on any host, a
    chain (internal/usecase/fleet_network_fabric.go:182-285). */
module FabricTeardown {
  import opened Text
  import opened NetPlane
  import opened PolicyCompiler
  import opened FabricRuns
  import opened FabricTombstones

  /** No policy, and no chain on any host. */
  ghost predicate Bare(w: World, id: Id) {
    PoliciesOf(w, id) == [] && forall h :: Slot(h, id) !in w.chains
  }

  ghost predicate Guarded(w: World, id: Id) { Tombstoned(w, id) ==> Bare(w, id) }

  ghost predicate Writer(s: System, u: nat, id: Id) { u in s.threads && Writes(s.threads[u].ph, id) }

  ghost predicate NoWriter(s: System, id: Id) { forall u :: !Writer(s, u, id) }

  /** No host but this one has a chain of the network. */
  ghost predicate OnlyOn(s: System, d: Id, id: Id) { forall h :: Slot(h, id) in s.w.chains ==> h == d }

  /** The thread is a Deprovision of this network that has yet to drop its host's chain. */
  ghost predicate Drops(s: System, t: nat, id: Id) {
    t in s.threads && s.threads[t].ph.Dropping? && s.threads[t].ph.n.id == id
  }

  /** A Deprovision about to drop on host d. With the chain there, the drop will succeed: nothing may
      write, and no other host may have a chain. Without it the drop is refused, unless a write on d
      pushes first: then no other host may have a chain and no second write may be under way. */
  ghost predicate DropSafe(s: System, d: Id, id: Id) {
    if Slot(d, id) in s.w.chains then NoWriter(s, id) && OnlyOn(s, d, id)
    else forall u :: Writer(s, u, id) && s.threads[u].host == d ==>
           OnlyOn(s, d, id) && forall v :: Writer(s, v, id) ==> v == u
  }

  ghost predicate Safe(s: System, id: Id) {
    && (forall t :: PastDrop(s, t, id) ==> NoWriter(s, id) && forall h :: Slot(h, id) !in s.w.chains)
    && (forall t :: Drops(s, t, id) ==> DropSafe(s, s.threads[t].host, id))
  }

  ghost predicate NoStarts(moves: seq<Move>) { forall i :: 0 <= i < |moves| ==> !moves[i].Start? }

  /** Some way of letting the operations under way run, fail and stop breaks the promise. */
  ghost predicate Endangered(s: System, id: Id) {
    exists more :: NoStarts(more) && !Guarded(After(s, more).w, id)
  }

  // ---------------------------------------------------------------- safe states stay safe

  lemma OnlyMarksTombstone(s: System, m: Move, id: Id)
    requires Sound(s) && !Tombstoned(s.w, id) && Tombstoned(Do(s, m).w, id)
    ensures exists d :: Marks(s, m, d, id)
  {
    hide Compile;
    hide KeyTaken;
    hide Begin;
    hide SoundWorld;
    hide ValidPolicies;
    assert m.Go? && m.t in s.threads;
    assert Marks(s, m, s.threads[m.t].host, id);
  }

  /** A step that does not tombstone the network while some host has a chain keeps the promise. */
  lemma GuardedStep(s: System, m: Move, id: Id)
    requires Sound(s) && Tidy(s, id) && NoConflict(s, id) && Guarded(s.w, id)
    requires forall d, h :: Marks(s, m, d, id) ==> Slot(h, id) !in s.w.chains
    ensures Guarded(Do(s, m).w, id)
  {
    hide Do;
    hide Sound;
    hide NoConflict;
    DoTidy(s, m, id);
    if Tombstoned(Do(s, m).w, id) {
      if Tombstoned(s.w, id) {
        forall h ensures Slot(h, id) !in Do(s, m).w.chains {
          ChainsWhileTombstoned(s, m, h, id);
        }
      } else {
        OnlyMarksTombstone(s, m, id);
        var d :| Marks(s, m, d, id);
        MarkStep(s, m, d, id);
      }
    }
  }

  lemma SafeFacts(s: System, id: Id)
    requires Safe(s, id)
    ensures NoConflict(s, id)
    ensures forall m, d, h :: Marks(s, m, d, id) ==> Slot(h, id) !in s.w.chains
  {
    forall m, d, h | Marks(s, m, d, id) ensures Slot(h, id) !in s.w.chains {
      assert PastDrop(s, m.t, id);
    }
    forall t, u | PastDrop(s, t, id) && u in s.threads ensures !Writes(s.threads[u].ph, id) {
      assert !Writer(s, u, id);
    }
  }

  /** In every run that never leaves the safe states, a deprovisioned network is bare everywhere. */
  lemma {:induction false} TombstonesAreBare(moves: seq<Move>, id: Id)
    requires forall k :: 0 <= k < |moves| ==> Safe(After(INIT, moves[..k]), id)
    ensures Sound(After(INIT, moves)) && Tidy(After(INIT, moves), id) && Guarded(After(INIT, moves).w, id)
  {
    hide Do;
    hide Sound;
    hide NoConflict;
    hide Safe;
    hide Marks;
    forall k | 0 <= k < |moves| ensures NoConflict(After(INIT, moves[..k]), id) {
      SafeFacts(After(INIT, moves[..k]), id);
    }
    AfterTidy(moves, id);
    if moves == [] {
      assert INIT.w.networks == map[];
    } else {
      var k := |moves| - 1;
      assert forall j :: 0 <= j < k ==> moves[..k][..j] == moves[..j];
      TombstonesAreBare(moves[..k], id);
      SafeFacts(After(INIT, moves[..k]), id);
      GuardedStep(After(INIT, moves[..k]), moves[k], id);
    }
  }

  lemma PushEndsWrite(w: World, host: Id, ph: Phase, inv: Inventory, id: Id)
    requires SoundPhase(w, ph) && ph.Pushing? && ph.n.id == id
    ensures Advance(w, host, ph, inv).1.Some? ==> !Writes(Advance(w, host, ph, inv).1.value, id)
  {
    hide Known;
    if ph.rest != [] && Touches(NextSync(ph.rest).value, id) {
      RestShrinks(ph.rest, id);
    }
  }

  /** What one call means for the network's teardowns and writes. */
  lemma CallFacts(s: System, t: nat, inv: Inventory, id: Id)
    requires Sound(s) && t in s.threads
    ensures var (th, ph') := (s.threads[t], Advance(s.w, s.threads[t].host, s.threads[t].ph, inv).1);
            ph'.Some? ==>
              && (Writes(ph'.value, id) ==>
                    || (Writes(th.ph, id) && !(th.ph.Pushing? && th.ph.n.id == id))
                    || (th.ph.Creating? && id !in s.w.networks))
              && !ph'.value.Dropping?
              && ((ph'.value.Clearing? || ph'.value.Marking?) ==>
                    && ph'.value.n == th.ph.n
                    && (th.ph.Clearing? || (th.ph.Dropping? && Slot(th.host, th.ph.n.id) in s.w.chains)))
  {
    hide Touches;
    hide Compile;
    hide KeyTaken;
    hide SoundWorld;
    hide Known;
    var (th, ph') := (s.threads[t], Advance(s.w, s.threads[t].host, s.threads[t].ph, inv).1);
    if ph'.Some? && Touches(ph'.value, id) {
      TouchesLess(s.w, th.host, th.ph, inv, id);
    }
    if th.ph.Pushing? && th.ph.n.id == id {
      PushEndsWrite(s.w, th.host, th.ph, inv, id);
    }
  }

  /** What one call does to the chains of a network. */
  lemma AdvanceChains(w: World, host: Id, ph: Phase, inv: Inventory, id: Id)
    ensures var w' := Advance(w, host, ph, inv).0;
            && (forall h :: Slot(h, id) in w'.chains ==>
                  && (Slot(h, id) in w.chains || (ph.Pushing? && ph.n.id == id && h == host))
                  && !(ph.Dropping? && ph.n.id == id && h == host))
  {
    hide Compile;
    hide KeyTaken;
  }

  /** The step of the whole system, as far as a network with a teardown under way is concerned: the
      writers are old writers on their old hosts, and a chain appears only where one of them pushed,
      which ends its writing. */
  ghost predicate Settles(s: System, s': System, id: Id) {
    && (forall u :: Writer(s', u, id) ==> Writer(s, u, id) && s'.threads[u].host == s.threads[u].host)
    && (forall h :: Slot(h, id) in s'.w.chains && Slot(h, id) !in s.w.chains ==>
          exists u :: Writer(s, u, id) && s.threads[u].host == h && !Writer(s', u, id))
    && (forall t :: Drops(s', t, id) ==> Drops(s, t, id) && s'.threads[t].host == s.threads[t].host)
    && (forall t :: PastDrop(s', t, id) ==>
          || PastDrop(s, t, id)
          || (Drops(s, t, id) && Slot(s.threads[t].host, id) in s.w.chains && Slot(s.threads[t].host, id) !in s'.w.chains))
  }

  lemma GoSettles(s: System, t: nat, inv: Inventory, id: Id)
    requires Sound(s) && t in s.threads && id in s.w.networks
    ensures Settles(s, Do(s, Go(t, inv)), id)
  {
    hide Advance;
    hide Writes;
    hide SoundPhase;
    hide SoundWorld;
    var (th, s') := (s.threads[t], Do(s, Go(t, inv)));
    CallFacts(s, t, inv, id);
    AdvanceChains(s.w, th.host, th.ph, inv, id);
    PushIsWrite(th.ph, id);
    if th.ph.Pushing? && th.ph.n.id == id {
      assert Writer(s, t, id) && !Writer(s', t, id);
    }
    forall x | PastDrop(s', x, id)
      ensures PastDrop(s, x, id) || (Drops(s, x, id) && Slot(s.threads[x].host, id) in s.w.chains && Slot(s.threads[x].host, id) !in s'.w.chains)
    {
      assert x != t ==> PastDrop(s, x, id);
    }
  }

  lemma PushIsWrite(ph: Phase, id: Id)
    ensures ph.Pushing? && ph.n.id == id ==> Writes(ph, id)
  {}

  lemma OtherSettles(s: System, m: Move, id: Id)
    requires !m.Start? && !m.Go?
    ensures Settles(s, Do(s, m), id)
  {
    hide Advance;
    hide Writes;
    hide Begin;
    var s' := Do(s, m);
    if m.Spoil? && m.t in s.threads {
      PushIsWrite(s.threads[m.t].ph, id);
      if s.threads[m.t].ph.Pushing? && s.threads[m.t].ph.n.id == id {
        assert Writer(s, m.t, id) && !Writer(s', m.t, id);
      }
    }
  }

  lemma SettlingIsSafe(s: System, s': System, id: Id)
    requires Safe(s, id) && Settles(s, s', id)
    ensures Safe(s', id)
  {
    hide Writes;
    forall t | PastDrop(s', t, id) ensures NoWriter(s', id) && forall h :: Slot(h, id) !in s'.w.chains {
      PastDropStaysSafe(s, s', t, id);
    }
    forall t | Drops(s', t, id) ensures DropSafe(s', s'.threads[t].host, id) {
      DropStaysSafe(s, s', s'.threads[t].host, id);
    }
  }

  lemma PastDropStaysSafe(s: System, s': System, t: nat, id: Id)
    requires Safe(s, id) && Settles(s, s', id) && PastDrop(s', t, id)
    ensures NoWriter(s', id) && forall h :: Slot(h, id) !in s'.w.chains
  {
    hide Writer;
    assert NoWriter(s, id);
  }

  lemma DropStaysSafe(s: System, s': System, d: Id, id: Id)
    requires DropSafe(s, d, id) && Settles(s, s', id)
    ensures DropSafe(s', d, id)
  {
    hide PastDrop;
    hide Drops;
    hide Writes;
    if Slot(d, id) in s.w.chains {
      assert NoWriter(s', id);
    } else if Slot(d, id) in s'.w.chains {
      var u :| Writer(s, u, id) && s.threads[u].host == d && !Writer(s', u, id);
      assert OnlyOn(s, d, id);
    }
  }

  lemma StaysSafe(s: System, m: Move, id: Id)
    requires Sound(s) && Safe(s, id) && !m.Start?
    ensures Safe(Do(s, m), id)
  {
    hide Settles;
    hide DropSafe;
    hide Sound;
    if m.Go? && m.t in s.threads {
      hide Do;
      if id in s.w.networks {
        GoSettles(s, m.t, m.inv, id);
        SettlingIsSafe(s, Do(s, m), id);
      } else {
        NoTeardown(s, m, id);
      }
    } else if !m.Go? {
      hide Do;
      OtherSettles(s, m, id);
      SettlingIsSafe(s, Do(s, m), id);
    }
  }

  /** Before a network has a row nobody is tearing it down, and a call does not begin to. */
  lemma NoTeardown(s: System, m: Move, id: Id)
    requires Sound(s) && id !in s.w.networks && m.Go? && m.t in s.threads
    ensures forall t :: !PastDrop(Do(s, m), t, id) && !Drops(Do(s, m), t, id)
  {
    hide Advance;
    hide Writes;
    hide SoundWorld;
    CallFacts(s, m.t, m.inv, id);
    forall t | t in s.threads ensures !(TearsDown(s.threads[t].ph) && s.threads[t].ph.n.id == id) {
      assert SoundPhase(s.w, s.threads[t].ph);
    }
  }

  lemma {:induction false} SafeRunsOn(s: System, more: seq<Move>, id: Id)
    requires Sound(s) && Tidy(s, id) && Safe(s, id) && Guarded(s.w, id) && NoStarts(more)
    ensures var s' := After(s, more); Sound(s') && Tidy(s', id) && Safe(s', id) && Guarded(s'.w, id)
  {
    hide Do;
    hide Sound;
    hide Safe;
    hide Tidy;
    hide Guarded;
    hide NoConflict;
    hide Marks;
    if more != [] {
      var k := |more| - 1;
      SafeRunsOn(s, more[..k], id);
      var s' := After(s, more[..k]);
      StaysSafe(s', more[k], id);
      SafeFacts(s', id);
      GuardedStep(s', more[k], id);
      DoSound(s', more[k]);
      DoTidy(s', more[k], id);
    }
  }

  // ---------------------------------------------------------------- an unsafe state can go wrong

  const NOTHING: Inventory := Inventory([], map[])

  lemma OneMove(s: System, m: Move)
    ensures After(s, [m]) == Do(s, m)
  {
    hide Do;
    AfterNone(s, []);
    AfterSnoc(s, [], m);
    assert [] + [m] == [m];
  }

  lemma DropsThenClears(s: System, t: nat)
    requires t in s.threads && (s.threads[t].ph.Dropping? || s.threads[t].ph.Clearing?)
    requires s.threads[t].ph.Dropping? ==> Slot(s.threads[t].host, s.threads[t].ph.n.id) in s.w.chains
    ensures var (th, s') := (s.threads[t], Do(s, Go(t, NOTHING)));
            && s'.threads == s.threads[t := Thread(th.host, if th.ph.Dropping? then Clearing(th.ph.n) else Marking(th.ph.n))]
            && s'.w.networks == s.w.networks
            && s'.w.chains == if th.ph.Dropping? then s.w.chains - {Slot(th.host, th.ph.n.id)} else s.w.chains
  {
    hide Compile;
    hide KeyTaken;
  }

  /** A Deprovision whose drop has succeeded or will can be run up to its last call. */
  lemma {:induction false} ToMarking(s: System, t: nat) returns (more: seq<Move>)
    requires t in s.threads && TearsDown(s.threads[t].ph)
    requires s.threads[t].ph.Dropping? ==> Slot(s.threads[t].host, s.threads[t].ph.n.id) in s.w.chains
    ensures NoStarts(more)
    ensures var (th, s') := (s.threads[t], After(s, more));
            && s'.threads == s.threads[t := Thread(th.host, Marking(th.ph.n))]
            && s'.w.networks == s.w.networks
            && s'.w.chains == if th.ph.Dropping? then s.w.chains - {Slot(th.host, th.ph.n.id)} else s.w.chains
    decreases if s.threads[t].ph.Dropping? then 2 else if s.threads[t].ph.Clearing? then 1 else 0
  {
    hide Do;
    if s.threads[t].ph.Marking? {
      AfterNone(s, []);
      assert s.threads == s.threads[t := s.threads[t]];
      return [];
    }
    var m := Go(t, NOTHING);
    DropsThenClears(s, t);
    OneMove(s, m);
    var rest := ToMarking(Do(s, m), t);
    AfterConcat(s, [m], rest);
    more := [m] + rest;
  }

  /** How many calls an operation may still make. */
  function Left(ph: Phase): nat {
    match ph
    case Reviving(_) => 5
    case Wiping(_) => 4
    case Listing(_, rest) => 3 + 3 * |rest|
    case Resolving(_, _, rest) => 2 + 3 * |rest|
    case Pushing(_, _, rest) => 1 + 3 * |rest|
    case Replacing(_, _) => 3
    case _ => 0
  }

  lemma WritesOn(w: World, host: Id, ph: Phase, id: Id)
    requires SoundPhase(w, ph) && Writes(ph, id) && !(ph.Pushing? && ph.n.id == id)
    ensures var ph' := Advance(w, host, ph, NOTHING).1;
            ph'.Some? && Writes(ph'.value, id) && Left(ph'.value) < Left(ph)
  {
    hide Compile;
    hide KeyTaken;
    hide ValidPolicies;
    if ph.Pushing? {
      NextWrites(ph.rest, id);
    }
  }

  lemma NextWrites(rest: seq<Network>, id: Id)
    requires exists i :: 0 <= i < |rest| && rest[i].id == id
    ensures NextSync(rest).Some? && Writes(NextSync(rest).value, id) && Left(NextSync(rest).value) == 3 * |rest|
  {
    var i :| 0 <= i < |rest| && rest[i].id == id;
    assert i > 0 ==> rest[1..][i - 1].id == id;
  }

  /** One call of a write takes no chain away. */
  lemma WriteKeepsChains(s: System, u: nat, id: Id)
    requires u in s.threads && Writes(s.threads[u].ph, id)
    ensures var s' := Do(s, Go(u, NOTHING));
            && s.w.chains.Keys <= s'.w.chains.Keys
            && (s.threads[u].ph.Pushing? ==> Slot(s.threads[u].host, s.threads[u].ph.n.id) in s'.w.chains)
            && forall t :: t in s.threads && t != u ==> t in s'.threads && s'.threads[t] == s.threads[t]
  {
    hide Compile;
    hide KeyTaken;
    hide Touches;
  }

  /** A write can always be run up to its push. */
  lemma {:induction false} ToPush(s: System, u: nat, id: Id) returns (more: seq<Move>)
    requires Sound(s) && Writer(s, u, id)
    ensures NoStarts(more) && Sound(After(s, more))
    ensures var s' := After(s, more);
            && Slot(s.threads[u].host, id) in s'.w.chains && s.w.chains.Keys <= s'.w.chains.Keys
            && forall t :: t in s.threads && t != u ==> t in s'.threads && s'.threads[t] == s.threads[t]
    decreases Left(s.threads[u].ph)
  {
    hide Advance;
    hide Writes;
    hide SoundWorld;
    hide SoundPhase;
    var (th, m) := (s.threads[u], Go(u, NOTHING));
    OneMove(s, m);
    hide After;
    DoSound(s, m);
    WriteKeepsChains(s, u, id);
    more := [m];
    if !(th.ph.Pushing? && th.ph.n.id == id) {
      WritesOn(s.w, th.host, th.ph, id);
      var rest := ToPush(Do(s, m), u, id);
      AfterConcat(s, [m], rest);
      more := [m] + rest;
    }
  }

  lemma MarkedWithChain(s: System, t: nat, h: Id, id: Id)
    requires Sound(s) && t in s.threads && s.threads[t].ph.Marking? && s.threads[t].ph.n.id == id
    requires Slot(h, id) in s.w.chains
    ensures !Guarded(Do(s, Go(t, NOTHING)).w, id)
  {
    hide Compile;
    hide KeyTaken;
    hide SoundWorld;
  }

  lemma Endangers(s: System, a: seq<Move>, b: seq<Move>, m: Move, id: Id)
    requires NoStarts(a) && NoStarts(b) && !m.Start? && !Guarded(Do(After(After(s, a), b), m).w, id)
    ensures Endangered(s, id)
  {
    hide Do;
    hide Guarded;
    AfterConcat(s, a, b);
    AfterSnoc(s, a + b, m);
    assert NoStarts(a + b + [m]);
  }

  lemma EndangeredEarlier(s: System, a: seq<Move>, id: Id)
    requires NoStarts(a) && Endangered(After(s, a), id)
    ensures Endangered(s, id)
  {
    hide After;
    hide Guarded;
    var more :| NoStarts(more) && !Guarded(After(After(s, a), more).w, id);
    AfterConcat(s, a, more);
    assert NoStarts(a + more);
  }

  /** The Deprovision has dropped its chain, or will find it. */
  ghost predicate Committed(s: System, t: nat, id: Id) {
    PastDrop(s, t, id) || (Drops(s, t, id) && Slot(s.threads[t].host, id) in s.w.chains)
  }

  /** A committed Deprovision beside a write goes wrong: finish it but for its last call, let the write
      push, then mark. */
  lemma OverlapEndangers(s: System, t: nat, u: nat, id: Id)
    requires Sound(s) && Committed(s, t, id) && Writer(s, u, id)
    ensures Endangered(s, id)
  {
    hide Do;
    hide Sound;
    hide After;
    hide Endangered;
    hide Touches;
    hide Guarded;
    var a := ToMarking(s, t);
    var s1 := After(s, a);
    AfterSound(s, a);
    var b := ToPush(s1, u, id);
    MarkedWithChain(After(s1, b), t, s.threads[u].host, id);
    Endangers(s, a, b, Go(t, NOTHING), id);
  }

  /** And so does a committed Deprovision while another host has the chain. */
  lemma ForeignChainEndangers(s: System, t: nat, h: Id, id: Id)
    requires Sound(s) && Committed(s, t, id) && Slot(h, id) in s.w.chains
    requires !(Drops(s, t, id) && h == s.threads[t].host)
    ensures Endangered(s, id)
  {
    hide Do;
    hide Sound;
    hide After;
    hide Endangered;
    hide Guarded;
    var a := ToMarking(s, t);
    AfterSound(s, a);
    AfterNone(After(s, a), []);
    MarkedWithChain(After(s, a), t, h, id);
    Endangers(s, a, [], Go(t, NOTHING), id);
  }

  /** A Deprovision that would be refused becomes committed when a write on its host pushes first. */
  lemma PushCommits(s: System, t: nat, u: nat, id: Id) returns (a: seq<Move>)
    requires Sound(s) && Drops(s, t, id) && Writer(s, u, id) && s.threads[u].host == s.threads[t].host
    ensures NoStarts(a) && Sound(After(s, a)) && Committed(After(s, a), t, id) && Drops(After(s, a), t, id)
    ensures var s' := After(s, a);
            && s'.threads[t].host == s.threads[t].host && s.w.chains.Keys <= s'.w.chains.Keys
            && forall v :: Writer(s, v, id) && v != u ==> Writer(s', v, id)
  {
    hide Do;
    hide Sound;
    hide After;
    hide Touches;
    assert t != u;
    a := ToPush(s, u, id);
  }

  lemma UnsafeDropEndangers(s: System, t: nat, id: Id)
    requires Sound(s) && Drops(s, t, id) && !DropSafe(s, s.threads[t].host, id)
    ensures Endangered(s, id)
  {
    hide Sound;
    hide After;
    hide Endangered;
    hide Touches;
    hide Writes;
    var d := s.threads[t].host;
    if Slot(d, id) in s.w.chains {
      if h :| Slot(h, id) in s.w.chains && h != d {
        ForeignChainEndangers(s, t, h, id);
      } else {
        var u :| Writer(s, u, id);
        OverlapEndangers(s, t, u, id);
      }
    } else {
      var u :| Writer(s, u, id) && s.threads[u].host == d && !(OnlyOn(s, d, id) && forall v :: Writer(s, v, id) ==> v == u);
      var a := PushCommits(s, t, u, id);
      if h :| Slot(h, id) in s.w.chains && h != d {
        ForeignChainEndangers(After(s, a), t, h, id);
      } else {
        var v :| Writer(s, v, id) && v != u;
        OverlapEndangers(After(s, a), t, v, id);
      }
      EndangeredEarlier(s, a, id);
    }
  }

  /** The exact condition. Of every state reached through safe ones: it is safe if and only if no way
      of letting the operations under way run on, fail or stop can leave the network deprovisioned with
      a policy or with a chain on some host. */
  lemma SafeIff(before: seq<Move>, id: Id)
    requires forall k :: 0 <= k < |before| ==> Safe(After(INIT, before[..k]), id)
    ensures Safe(After(INIT, before), id) <==> !Endangered(After(INIT, before), id)
  {
    hide After;
    hide Sound;
    hide Tidy;
    hide Guarded;
    hide Writes;
    hide DropSafe;
    var s := After(INIT, before);
    TombstonesAreBare(before, id);
    if Safe(s, id) {
      hide Safe;
      forall more | NoStarts(more) ensures Guarded(After(s, more).w, id) {
        SafeRunsOn(s, more, id);
      }
    } else if t :| Drops(s, t, id) && !DropSafe(s, s.threads[t].host, id) {
      hide Endangered;
      UnsafeDropEndangers(s, t, id);
    } else {
      hide Endangered;
      var t :| PastDrop(s, t, id) && !(NoWriter(s, id) && forall h :: Slot(h, id) !in s.w.chains);
      if u :| Writer(s, u, id) {
        OverlapEndangers(s, t, u, id);
      } else {
        var h :| Slot(h, id) in s.w.chains;
        ForeignChainEndangers(s, t, h, id);
      }
    }
  }

  /** With one enforcing host the condition is that no committed Deprovision overlaps a write, and none
      that lacks its chain overlaps two. */
  lemma SafeOnOneHost(s: System, host: Id, id: Id)
    requires Tidy(s, id) && AllOn(s, host)
    ensures Safe(s, id) <==>
            (&& (forall t :: Committed(s, t, id) ==> NoWriter(s, id))
             && (forall t, u, v :: Drops(s, t, id) && !Committed(s, t, id) && Writer(s, u, id) && Writer(s, v, id) ==> u == v))
  {
    hide Writes;
    assert OnlyOn(s, host, id);
    forall t | PastDrop(s, t, id) ensures forall h :: Slot(h, id) !in s.w.chains {
      TouchesOwn(s.threads[t].ph, id);
      assert Fitting(s.w, s.threads[t], id);
    }
    if Safe(s, id) {
      forall t | Committed(s, t, id) ensures NoWriter(s, id) {
        assert Drops(s, t, id) ==> DropSafe(s, host, id);
      }
      forall t, u, v | Drops(s, t, id) && !Committed(s, t, id) && Writer(s, u, id) && Writer(s, v, id) ensures u == v {
        assert DropSafe(s, host, id) && s.threads[u].host == host;
      }
    }
    if (forall t :: Committed(s, t, id) ==> NoWriter(s, id))
       && (forall t, u, v :: Drops(s, t, id) && !Committed(s, t, id) && Writer(s, u, id) && Writer(s, v, id) ==> u == v) {
      forall t | Drops(s, t, id) ensures DropSafe(s, s.threads[t].host, id) {
        assert Slot(host, id) in s.w.chains ==> Committed(s, t, id);
        assert Slot(host, id) !in s.w.chains ==> !Committed(s, t, id);
      }
      forall t | PastDrop(s, t, id) ensures NoWriter(s, id) {
        assert Committed(s, t, id);
      }
    }
  }

  ghost predicate AllOn(s: System, host: Id) {
    && (forall t :: t in s.threads ==> s.threads[t].host == host)
    && (forall slot :: slot in s.w.chains ==> slot.host == host)
  }

  lemma DoStaysOn(s: System, m: Move, host: Id)
    requires AllOn(s, host) && (m.Start? ==> m.host == host)
    ensures AllOn(Do(s, m), host)
  {
    hide Begin;
    hide Compile;
    hide KeyTaken;
  }

  lemma {:induction false} RunStaysOn(moves: seq<Move>, host: Id)
    requires forall i :: 0 <= i < |moves| && moves[i].Start? ==> moves[i].host == host
    ensures AllOn(After(INIT, moves), host)
  {
    hide Do;
    if moves != [] {
      var k := |moves| - 1;
      RunStaysOn(moves[..k], host);
      DoStaysOn(After(INIT, moves[..k]), moves[k], host);
    }
  }

  /** With one enforcing host, in every run in which no Deprovision of the network that has dropped its
      chain overlaps a write of it, a deprovisioned network has no policy and no chain. */
  lemma {:induction false} TombstonesAreBareOnOneHost(moves: seq<Move>, host: Id, id: Id)
    requires forall i :: 0 <= i < |moves| && moves[i].Start? ==> moves[i].host == host
    requires forall k :: 0 <= k < |moves| ==> NoConflict(After(INIT, moves[..k]), id)
    ensures Guarded(After(INIT, moves).w, id)
  {
    hide Do;
    hide Sound;
    hide NoConflict;
    hide Tidy;
    if moves == [] {
      assert INIT.w.networks == map[];
    } else {
      var k := |moves| - 1;
      assert forall j :: 0 <= j < k ==> moves[..k][..j] == moves[..j];
      TombstonesAreBareOnOneHost(moves[..k], host, id);
      AfterTidy(moves[..k], id);
      RunStaysOn(moves[..k], host);
      var s := After(INIT, moves[..k]);
      forall d, h | Marks(s, moves[k], d, id) ensures Slot(h, id) !in s.w.chains {
        MarkStep(s, moves[k], d, id);
      }
      GuardedStep(s, moves[k], id);
    }
  }

  // ---------------------------------------------------------------- instances

  /** The reconcile tick's SyncForApp is a write of every active network, and so is an ApplyPolicies. */
  lemma TickAndApplyWrite(w: World, id: Id, ps: seq<Policy>)
    requires SoundWorld(w) && Active(w, id) && ValidPolicies(ps)
    ensures var (n, sync, apply) := (w.networks[id], SyncFor(w.networks[id].systemID, w.networks[id].env), Apply(true, id, ps));
            && Begin(w, sync) == Some(Listing(n, [])) && Writes(Listing(n, []), id)
            && Begin(w, apply) == Some(Replacing(n, ps)) && Writes(Replacing(n, ps), id)
  {
    hide ValidPolicies;
    var n := w.networks[id];
    assert KeyTaken(w, n.systemID, n.env) by { assert HasKey(w.networks[id], n.systemID, n.env); }
  }

  /** Nothing in the fabric keeps the two apart: start any write of a network, on any host, and a
      Deprovision of it on a host that has its chain, and the promise can be broken. */
  lemma WriteBesideDeprovision(s: System, t: nat, u: nat, a: Id, b: Id, req: Request, id: Id)
    requires Sound(s) && id in s.w.networks && t != u && t !in s.threads && u !in s.threads
    requires Begin(s.w, req).Some? && Writes(Begin(s.w, req).value, id) && Slot(b, id) in s.w.chains
    ensures Endangered(After(s, [Start(u, a, req), Start(t, b, Deprovision(id))]), id)
  {
    hide Endangered;
    hide Writes;
    hide SoundPhase;
    hide SoundWorld;
    hide Advance;
    var (m, m') := (Start(u, a, req), Start(t, b, Deprovision(id)));
    OneMove(s, m);
    AfterSnoc(s, [m], m');
    assert [m] + [m'] == [m, m'];
    AfterSound(s, [m, m']);
    hide After;
    var s1 := Do(s, m);
    assert s1 == s.(threads := s.threads[u := Thread(a, Begin(s.w, req).value)]);
    DeprovisionStarts(s1, t, b, id);
    OwnKey(s.w, id);
    OverlapEndangers(Do(s1, m'), t, u, id);
  }

  function Thrice(t: nat, inv: Inventory): seq<Move> { [Go(t, inv), Go(t, inv), Go(t, inv)] }

  lemma ThriceRuns(s: System, t: nat, inv: Inventory)
    ensures var go := Go(t, inv); After(s, Thrice(t, inv)) == Do(Do(Do(s, go), go), go)
  {
    hide Do;
    var go := Go(t, inv);
    OneMove(s, go);
    AfterSnoc(s, [go], go);
    AfterSnoc(s, [go, go], go);
    assert [go] + [go] == [go, go] && [go, go] + [go] == [go, go, go];
  }

  /** An ApplyPolicies that passed its status check, then a whole Deprovision, then the rest of the
      ApplyPolicies. */
  function Race(t: nat, u: nat, a: Id, b: Id, id: Id, ps: seq<Policy>, inv: Inventory): seq<Move> {
    [Start(u, a, Apply(true, id, ps)), Start(t, b, Deprovision(id))] + Thrice(t, inv) + Thrice(u, inv)
  }

  /** For every valid set, that order leaves a deprovisioned network with the full set in the table and
      its chain installed. */
  lemma OverlapRevivesATombstone(s: System, t: nat, u: nat, a: Id, b: Id, id: Id, ps: seq<Policy>, inv: Inventory)
    requires Sound(s) && Active(s.w, id) && ValidPolicies(ps) && t != u && t !in s.threads && u !in s.threads
    requires Slot(b, id) in s.w.chains
    ensures var w := After(s, Race(t, u, a, b, id, ps, inv)).w;
            && Tombstoned(w, id) && PoliciesOf(w, id) == ps
            && Slot(a, id) in w.chains && w.chains[Slot(a, id)] == Compile(inv, s.w.networks[id], ps)
  {
    hide Compile;
    hide ValidPolicies;
    hide SoundPhase;
    var (m, m', n) := (Start(u, a, Apply(true, id, ps)), Start(t, b, Deprovision(id)), s.w.networks[id]);
    OwnKey(s.w, id);
    var s1 := Do(s, m);
    assert s1 == s.(threads := s.threads[u := Thread(a, Replacing(n, ps))]);
    DeprovisionStarts(s1, t, b, id);
    OneMove(s, m);
    AfterSnoc(s, [m], m');
    assert [m] + [m'] == [m, m'];
    var s2 := Do(s1, m');
    TeardownRuns(s2, t, b, n, inv);
    ThriceRuns(s2, t, inv);
    var s5 := After(s2, Thrice(t, inv));
    ApplyRuns(s5, u, a, n, ps, inv);
    ThriceRuns(s5, u, inv);
    hide After;
    hide Do;
    AfterConcat(s, [m, m'], Thrice(t, inv));
    AfterConcat(s, [m, m'] + Thrice(t, inv), Thrice(u, inv));
  }

  lemma ApplyRuns(s: System, u: nat, a: Id, n: Network, ps: seq<Policy>, inv: Inventory)
    requires u in s.threads && s.threads[u] == Thread(a, Replacing(n, ps)) && Tombstoned(s.w, n.id)
    ensures var go := Go(u, inv);
            var w := Do(Do(Do(s, go), go), go).w;
            && Tombstoned(w, n.id) && PoliciesOf(w, n.id) == ps
            && Slot(a, n.id) in w.chains && w.chains[Slot(a, n.id)] == Compile(inv, n, ps)
  {
    hide Compile;
    hide KeyTaken;
    var go := Go(u, inv);
    var s1 := Do(s, go);
    assert s1 == System(s.w.(policies := s.w.policies[n.id := ps]), s.threads[u := Thread(a, Resolving(n, ps, []))]);
    var s2 := Do(s1, go);
    assert s2 == System(s1.w, s1.threads[u := Thread(a, Pushing(n, Compile(inv, n, ps), []))]);
  }

  /** And with nothing overlapping at all: a Deprovision served by one host leaves another host's chain
      of the network installed, rule for rule, and that host's tick no longer looks at it. */
  lemma SecondHostKeepsItsChain(s: System, t: nat, a: Id, b: Id, id: Id)
    requires Sound(s) && Active(s.w, id) && t !in s.threads && a != b && Slot(a, id) in s.w.chains && Slot(b, id) in s.w.chains
    ensures var (w, n) := (After(s, [Start(t, a, Deprovision(id))] + Thrice(t, NOTHING)).w, s.w.networks[id]);
            && Tombstoned(w, id) && PoliciesOf(w, id) == [] && Slot(a, id) !in w.chains
            && Slot(b, id) in w.chains && w.chains[Slot(b, id)] == s.w.chains[Slot(b, id)]
            && Begin(w, SyncFor(n.systemID, n.env)) == None
  {
    hide SoundWorld;
    hide SoundPhase;
    var (start, n) := (Start(t, a, Deprovision(id)), s.w.networks[id]);
    OwnKey(s.w, id);
    DeprovisionStarts(s, t, a, id);
    TeardownRuns(Do(s, start), t, a, n, NOTHING);
    hide Do;
    OneMove(s, start);
    ThriceRuns(Do(s, start), t, NOTHING);
    AfterConcat(s, [start], Thrice(t, NOTHING));
    hide After;
    AfterSound(s, [start] + Thrice(t, NOTHING));
    hide Begin;
    NotSynced(Deprovisioned(s.w, a, id), id);
  }

  lemma OwnKey(w: World, id: Id)
    requires SoundWorld(w) && id in w.networks
    ensures w.networks[id].id == id
  {}

  lemma DeprovisionStarts(s: System, t: nat, a: Id, id: Id)
    requires id in s.w.networks && t !in s.threads
    ensures Do(s, Start(t, a, Deprovision(id))) == s.(threads := s.threads[t := Thread(a, Dropping(s.w.networks[id]))])
  {}

  ghost function Deprovisioned(w: World, host: Id, id: Id): World
    requires id in w.networks
  {
    World(w.networks[id := w.networks[id].(active := false)], w.policies[id := []], w.chains - {Slot(host, id)}, w.pushed)
  }

  lemma TeardownRuns(s: System, t: nat, a: Id, n: Network, inv: Inventory)
    requires t in s.threads && s.threads[t] == Thread(a, Dropping(n)) && n.id in s.w.networks && Slot(a, n.id) in s.w.chains
    ensures var go := Go(t, inv);
            Do(Do(Do(s, go), go), go) == System(Deprovisioned(s.w, a, n.id), s.threads - {t})
  {
    hide Compile;
    hide KeyTaken;
    var go := Go(t, inv);
    var s1 := Do(s, go);
    assert s1 == System(s.w.(chains := s.w.chains - {Slot(a, n.id)}), s.threads[t := Thread(a, Clearing(n))]);
    var s2 := Do(s1, go);
    assert s2 == System(s1.w.(policies := s.w.policies[n.id := []]), s1.threads[t := Thread(a, Marking(n))]);
    assert s2.threads - {t} == s.threads - {t};
  }

  /** Where the chain is not installed a Deprovision does nothing at all: so one that dropped the chain
      and then failed is refused on every retry there, until a sync of the still active network has
      installed the chain again. */
  lemma RefusedWithoutChain(s: System, t: nat, a: Id, id: Id)
    requires Sound(s) && id in s.w.networks && t !in s.threads && Slot(a, id) !in s.w.chains
    ensures After(s, [Start(t, a, Deprovision(id)), Go(t, NOTHING)]) == s
  {
    hide SoundPhase;
    var (start, go) := (Start(t, a, Deprovision(id)), Go(t, NOTHING));
    OwnKey(s.w, id);
    DeprovisionStarts(s, t, a, id);
    OneMove(s, start);
    AfterSnoc(s, [start], go);
    assert [start] + [go] == [start, go];
    RefusedDrop(Do(s, start), t);
    assert Do(s, start).threads - {t} == s.threads;
  }

  lemma RefusedDrop(s: System, t: nat)
    requires t in s.threads && s.threads[t].ph.Dropping? && Slot(s.threads[t].host, s.threads[t].ph.n.id) !in s.w.chains
    ensures Do(s, Go(t, NOTHING)) == Without(s, t)
  {
    hide Compile;
    hide KeyTaken;
  }

  lemma NotSynced(w: World, id: Id)
    requires SoundWorld(w) && Tombstoned(w, id)
    ensures Begin(w, SyncFor(w.networks[id].systemID, w.networks[id].env)) == None
  {
    hide ValidPolicies;
  }
}
