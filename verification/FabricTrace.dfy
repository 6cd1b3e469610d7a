/** Where every pushed rule comes from: the policy set the table held for that very network, resolved
    against an inventory read during the run (internal/usecase/fleet_network_fabric.go:341-441). */
module FabricTrace {
  import opened Text
  import opened NetPlane
  import opened PolicyCompiler
  import opened FabricRuns

  ghost predicate StoredAt(moves: seq<Move>, j: nat, id: Id, ps: seq<Policy>) {
    j <= |moves| && PoliciesOf(After(INIT, moves[..j]).w, id) == ps
  }

  /** The table held this policy set for this network at some step of the run. */
  ghost predicate WasStored(moves: seq<Move>, id: Id, ps: seq<Policy>) {
    exists j: nat :: StoredAt(moves, j, id, ps)
  }

  /** Move k resolves, on this host and for this network's scope, a policy set stored before it, and
      these are the rules it yields in the inventory of that move. */
  ghost predicate CompiledAt(moves: seq<Move>, k: nat, host: Id, n: Network, rules: seq<Rule>) {
    && k < |moves| && moves[k].Go?
    && (var threads := After(INIT, moves[..k]).threads;
        && moves[k].t in threads && threads[moves[k].t].host == host
        && (var ph := threads[moves[k].t].ph;
            && ph.Resolving? && SameScope(ph.n, n)
            && WasStored(moves[..k], n.id, ph.ps)
            && rules == Compile(moves[k].inv, ph.n, ph.ps)))
  }

  ghost predicate WasCompiled(moves: seq<Move>, host: Id, n: Network, rules: seq<Rule>) {
    exists k: nat :: CompiledAt(moves, k, host, n, rules)
  }

  ghost predicate TracedThread(moves: seq<Move>, th: Thread) {
    && (th.ph.Resolving? ==> WasStored(moves, th.ph.n.id, th.ph.ps))
    && (th.ph.Pushing? ==> WasCompiled(moves, th.host, th.ph.n, th.ph.rules))
  }

  ghost predicate TracedPush(moves: seq<Move>, w: World, p: Push) {
    p.slot.net in w.networks && WasCompiled(moves, p.slot.host, w.networks[p.slot.net], p.rules)
  }

  ghost predicate TracedChains(w: World) {
    forall slot :: slot in w.chains ==> w.chains[slot] == [] || Push(slot, w.chains[slot]) in w.pushed
  }

  ghost predicate Traced(moves: seq<Move>, s: System) {
    && (forall t :: t in s.threads ==> TracedThread(moves, s.threads[t]))
    && (forall p :: p in s.w.pushed ==> TracedPush(moves, s.w, p))
    && TracedChains(s.w)
  }

  // ---------------------------------------------------------------- histories only grow

  lemma StoredLater(moves: seq<Move>, m: Move, id: Id, ps: seq<Policy>)
    requires WasStored(moves, id, ps)
    ensures WasStored(moves + [m], id, ps)
  {
    hide After;
    var j: nat :| StoredAt(moves, j, id, ps);
    assert (moves + [m])[..j] == moves[..j];
    assert StoredAt(moves + [m], j, id, ps);
  }

  lemma CompiledLater(moves: seq<Move>, m: Move, host: Id, n: Network, rules: seq<Rule>)
    requires WasCompiled(moves, host, n, rules)
    ensures WasCompiled(moves + [m], host, n, rules)
  {
    hide After;
    hide WasStored;
    hide Compile;
    var k: nat :| CompiledAt(moves, k, host, n, rules);
    assert (moves + [m])[..k] == moves[..k];
    assert CompiledAt(moves + [m], k, host, n, rules);
  }

  lemma CompiledForScope(moves: seq<Move>, host: Id, n: Network, n': Network, rules: seq<Rule>)
    requires WasCompiled(moves, host, n, rules) && SameScope(n, n')
    ensures WasCompiled(moves, host, n', rules)
  {
    hide After;
    hide WasStored;
    hide Compile;
    var k: nat :| CompiledAt(moves, k, host, n, rules);
    assert CompiledAt(moves, k, host, n', rules);
  }

  lemma ThreadLater(moves: seq<Move>, m: Move, th: Thread)
    requires TracedThread(moves, th)
    ensures TracedThread(moves + [m], th)
  {
    hide WasStored;
    hide WasCompiled;
    if th.ph.Resolving? {
      StoredLater(moves, m, th.ph.n.id, th.ph.ps);
    } else if th.ph.Pushing? {
      CompiledLater(moves, m, th.host, th.ph.n, th.ph.rules);
    }
  }

  lemma PushLater(moves: seq<Move>, m: Move, w: World, w': World, p: Push)
    requires TracedPush(moves, w, p) && Keeps(w, w')
    ensures TracedPush(moves + [m], w', p)
  {
    hide WasCompiled;
    var (n, n') := (w.networks[p.slot.net], w'.networks[p.slot.net]);
    CompiledForScope(moves, p.slot.host, n, n', p.rules);
    CompiledLater(moves, m, p.slot.host, n', p.rules);
  }

  // ---------------------------------------------------------------- one move

  lemma StoredNow(moves: seq<Move>, id: Id)
    ensures WasStored(moves, id, PoliciesOf(After(INIT, moves).w, id))
  {
    hide After;
    assert moves[..|moves|] == moves;
    assert StoredAt(moves, |moves|, id, PoliciesOf(After(INIT, moves).w, id));
  }

  lemma CompiledNow(moves: seq<Move>, t: nat, inv: Inventory)
    requires var s := After(INIT, moves);
             t in s.threads && s.threads[t].ph.Resolving? && TracedThread(moves, s.threads[t])
    ensures var th := After(INIT, moves).threads[t];
            WasCompiled(moves + [Go(t, inv)], th.host, th.ph.n, Compile(inv, th.ph.n, th.ph.ps))
  {
    hide After;
    hide WasStored;
    hide Compile;
    var (m, all) := (Go(t, inv), moves + [Go(t, inv)]);
    var th := After(INIT, moves).threads[t];
    assert all[..|moves|] == moves;
    assert CompiledAt(all, |moves|, th.host, th.ph.n, Compile(inv, th.ph.n, th.ph.ps));
  }

  /** The thread a Go move leaves behind is traced. */
  lemma GoTracesThread(moves: seq<Move>, t: nat, inv: Inventory)
    requires var s := After(INIT, moves);
             t in s.threads && TracedThread(moves, s.threads[t])
    ensures var (s, all) := (After(INIT, moves), moves + [Go(t, inv)]);
            var ph := Advance(s.w, s.threads[t].host, s.threads[t].ph, inv).1;
            ph.Some? ==> TracedThread(all, Thread(s.threads[t].host, ph.value))
  {
    hide Compile;
    hide KeyTaken;
    hide WasStored;
    hide WasCompiled;
    var s := After(INIT, moves);
    var (th, all) := (s.threads[t], moves + [Go(t, inv)]);
    AfterSnoc(INIT, moves, Go(t, inv));
    var s' := After(INIT, all);
    hide After;
    if th.ph.Listing? {
      StoredNow(moves, th.ph.n.id);
      StoredLater(moves, Go(t, inv), th.ph.n.id, PoliciesOf(s.w, th.ph.n.id));
    } else if th.ph.Replacing? {
      assert PoliciesOf(s'.w, th.ph.n.id) == th.ph.ps;
      StoredNow(all, th.ph.n.id);
    } else if th.ph.Resolving? {
      CompiledNow(moves, t, inv);
    }
  }

  lemma AdvancePushes(w: World, host: Id, ph: Phase, inv: Inventory)
    requires TracedChains(w)
    ensures var w' := Advance(w, host, ph, inv).0;
            && w'.pushed == (if ph.Pushing? then w.pushed + {Push(Slot(host, ph.n.id), ph.rules)} else w.pushed)
            && TracedChains(w')
  {
    hide Compile;
    hide KeyTaken;
  }

  lemma GoTraced(moves: seq<Move>, t: nat, inv: Inventory)
    requires var s := After(INIT, moves);
             Sound(s) && Traced(moves, s) && t in s.threads
    ensures Traced(moves + [Go(t, inv)], After(INIT, moves + [Go(t, inv)]))
  {
    hide TracedThread;
    hide TracedPush;
    hide TracedChains;
    hide Advance;
    hide SoundWorld;
    hide SoundPhase;
    var s := After(INIT, moves);
    var (th, m) := (s.threads[t], Go(t, inv));
    AfterSnoc(INIT, moves, m);
    DoSound(s, m);
    GoTracesThread(moves, t, inv);
    AdvancePushes(s.w, th.host, th.ph, inv);
    hide After;
    var s' := Do(s, m);
    forall u | u in s.threads ensures TracedThread(moves + [m], s.threads[u]) {
      ThreadLater(moves, m, s.threads[u]);
    }
    forall p | p in s'.w.pushed ensures TracedPush(moves + [m], s'.w, p) {
      if p in s.w.pushed {
        PushLater(moves, m, s.w, s'.w, p);
      } else {
        NewPush(moves, m, s, th, s'.w);
      }
    }
  }

  lemma NewPush(moves: seq<Move>, m: Move, s: System, th: Thread, w': World)
    requires th.ph.Pushing? && TracedThread(moves, th) && SoundPhase(s.w, th.ph) && Keeps(s.w, w')
    ensures TracedPush(moves + [m], w', Push(Slot(th.host, th.ph.n.id), th.ph.rules))
  {
    hide WasCompiled;
    CompiledForScope(moves, th.host, th.ph.n, w'.networks[th.ph.n.id], th.ph.rules);
    CompiledLater(moves, m, th.host, w'.networks[th.ph.n.id], th.ph.rules);
  }

  lemma BeginTraced(moves: seq<Move>, w: World, host: Id, req: Request)
    requires Begin(w, req).Some?
    ensures TracedThread(moves, Thread(host, Begin(w, req).value))
  {
    hide WasStored;
    hide WasCompiled;
  }

  lemma OtherTraced(moves: seq<Move>, m: Move)
    requires var s := After(INIT, moves); Sound(s) && Traced(moves, s)
    requires !m.Go?
    ensures Traced(moves + [m], After(INIT, moves + [m]))
  {
    hide TracedThread;
    hide TracedPush;
    hide SoundWorld;
    hide SoundPhase;
    hide Begin;
    var s := After(INIT, moves);
    AfterSnoc(INIT, moves, m);
    DoSound(s, m);
    hide After;
    var s' := Do(s, m);
    if m.Start? && Begin(s.w, m.req).Some? {
      BeginTraced(moves + [m], s.w, m.host, m.req);
    }
    forall u | u in s.threads ensures TracedThread(moves + [m], s.threads[u]) {
      ThreadLater(moves, m, s.threads[u]);
    }
    forall p | p in s'.w.pushed ensures TracedPush(moves + [m], s'.w, p) {
      PushLater(moves, m, s.w, s'.w, p);
    }
  }

  lemma {:induction false} EveryRunIsTraced(moves: seq<Move>)
    ensures Traced(moves, After(INIT, moves))
  {
    hide Do;
    hide TracedThread;
    hide TracedPush;
    if moves == [] {
      assert INIT.threads == map[];
    } else {
      var (front, m) := (moves[..|moves| - 1], moves[|moves| - 1]);
      assert moves == front + [m];
      EveryRunIsTraced(front);
      InitSound();
      AfterSound(INIT, front);
      if m.Go? && m.t in After(INIT, front).threads {
        GoTraced(front, m.t, m.inv);
      } else if m.Go? {
        IdleGoTraced(front, m);
      } else {
        OtherTraced(front, m);
      }
    }
  }

  lemma IdleGoTraced(moves: seq<Move>, m: Move)
    requires var s := After(INIT, moves); Sound(s) && Traced(moves, s)
    requires m.Go? && m.t !in After(INIT, moves).threads
    ensures Traced(moves + [m], After(INIT, moves + [m]))
  {
    hide TracedThread;
    hide TracedPush;
    hide Advance;
    var s := After(INIT, moves);
    AfterSnoc(INIT, moves, m);
    hide After;
    forall u | u in s.threads ensures TracedThread(moves + [m], s.threads[u]) {
      ThreadLater(moves, m, s.threads[u]);
    }
    forall p | p in s.w.pushed ensures TracedPush(moves + [m], s.w, p) {
      PushLater(moves, m, s.w, s.w, p);
    }
  }

  // ---------------------------------------------------------------- what a pushed rule means

  /** Move k is this host resolving a policy set the table held for this network before, and one of
      those policies joins the rule's two addresses: both are served, in the inventory read at move
      k, by members of the network's own system, environment and organisation. */
  ghost predicate JustifiedAt(moves: seq<Move>, k: nat, host: Id, n: Network, r: Rule) {
    && k < |moves| && moves[k].Go?
    && (var threads := After(INIT, moves[..k]).threads;
        && moves[k].t in threads && threads[moves[k].t].host == host
        && (var ph := threads[moves[k].t].ph;
            && ph.Resolving? && SameScope(ph.n, n) && WasStored(moves[..k], n.id, ph.ps)
            && exists q :: q in ph.ps && Joins(moves[k].inv, n, q, r)))
  }

  ghost predicate Justified(moves: seq<Move>, host: Id, n: Network, r: Rule) {
    WellFormedRule(r) && exists k: nat :: JustifiedAt(moves, k, host, n, r)
  }

  lemma JoinsInScope(inv: Inventory, n: Network, n': Network, q: Policy, r: Rule)
    requires SameScope(n, n') && Joins(inv, n, q, r)
    ensures Joins(inv, n', q, r)
  {
    hide Serving;
  }

  lemma CompiledIsJustified(moves: seq<Move>, k: nat, host: Id, n: Network, rules: seq<Rule>, r: Rule)
    requires CompiledAt(moves, k, host, n, rules) && r in rules
    ensures Justified(moves, host, n, r)
  {
    hide After;
    hide WasStored;
    hide Compile;
    hide WellFormedRule;
    hide Joins;
    hide SoundWorld;
    var ph := After(INIT, moves[..k]).threads[moves[k].t].ph;
    CompileSound(moves[k].inv, ph.n, ph.ps, r);
    var q :| q in ph.ps && Joins(moves[k].inv, ph.n, q, r);
    JoinsInScope(moves[k].inv, ph.n, n, q, r);
    assert JustifiedAt(moves, k, host, n, r);
    InitSound();
    AfterSound(INIT, moves[..k]);
    CompileWellFormed(moves[k].inv, ph.n, ph.ps);
  }

  /** In every interleaving, on any number of hosts, with operations stopping anywhere: each rule ever
      pushed, and each rule of each installed chain, is tcp on a port in 1..65535 between two fleet
      addresses, and joins, by a policy stored for that network, addresses served inside that network's
      own system, environment and organisation when its host resolved it. */
  lemma PushedRulesStayInScope(moves: seq<Move>)
    ensures var w := After(INIT, moves).w;
            && (forall p, r :: p in w.pushed && r in p.rules ==>
                  p.slot.net in w.networks && Justified(moves, p.slot.host, w.networks[p.slot.net], r))
            && (forall slot, r :: slot in w.chains && r in w.chains[slot] ==>
                  slot.net in w.networks && Justified(moves, slot.host, w.networks[slot.net], r))
  {
    hide After;
    hide Justified;
    hide CompiledAt;
    EveryRunIsTraced(moves);
    var w := After(INIT, moves).w;
    forall p, r | p in w.pushed && r in p.rules
      ensures p.slot.net in w.networks && Justified(moves, p.slot.host, w.networks[p.slot.net], r)
    {
      assert TracedPush(moves, w, p);
      var k: nat :| CompiledAt(moves, k, p.slot.host, w.networks[p.slot.net], p.rules);
      CompiledIsJustified(moves, k, p.slot.host, w.networks[p.slot.net], p.rules, r);
    }
    forall slot, r | slot in w.chains && r in w.chains[slot]
      ensures slot.net in w.networks && Justified(moves, slot.host, w.networks[slot.net], r)
    {
      var p := Push(slot, w.chains[slot]);
      assert p in w.pushed && r in p.rules;
    }
  }
}
