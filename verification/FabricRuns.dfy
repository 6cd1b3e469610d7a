/** The policy-scope lifecycle as a step machine. Every fabric operation is a chain of store and
    enforcer calls; any number of operations may be under way on any number of hosts, and each may
    stop for good between two calls (internal/usecase/fleet_network_fabric.go:104-305, 341-357). */
module FabricRuns {
  import opened Text
  import opened NetPlane
  import opened PolicyCompiler

  /** A network's chain on one host. */
  datatype Slot = Slot(host: Id, net: Id)

  datatype Push = Push(slot: Slot, rules: seq<Rule>)

  /** The network and policy tables, which all hosts share, every host's own chains, and every rule
      set ever pushed. */
  datatype World = World(
    networks: map<Id, Network>, policies: map<Id, seq<Policy>>, chains: map<Slot, seq<Rule>>, pushed: set<Push>)

  const EMPTY: World := World(map[], map[], map[], {})

  datatype Request =
    | Ensure(posture: bool, systemID: string, env: string, ownerOrg: string, freshId: Id)
    | Apply(posture: bool, handle: Id, specs: seq<Policy>)
    | Deprovision(handle: Id)
    | SyncFor(systemID: string, env: string)
    | Restore(order: seq<Id>)

  /** The next call of an operation, with the row copy it works on. */
  datatype Phase =
    | Creating(n: Network)
    | Reviving(n: Network)
    | Wiping(n: Network)
    | Listing(n: Network, rest: seq<Network>)
    | Resolving(n: Network, ps: seq<Policy>, rest: seq<Network>)
    | Pushing(n: Network, rules: seq<Rule>, rest: seq<Network>)
    | Replacing(n: Network, ps: seq<Policy>)
    | Dropping(n: Network)
    | Clearing(n: Network)
    | Marking(n: Network)

  function PoliciesOf(w: World, id: Id): seq<Policy> {
    if id in w.policies then w.policies[id] else []
  }

  predicate HasKey(n: Network, systemID: string, env: string) { n.systemID == systemID && n.env == env }

  predicate KeyTaken(w: World, systemID: string, env: string) {
    exists id :: id in w.networks && HasKey(w.networks[id], systemID, env)
  }

  /** FindBySystemEnv: an empty system is no key. */
  ghost function FindByKey(w: World, systemID: string, env: string): Option<Network> {
    if systemID != "" && KeyTaken(w, systemID, env) then
      var id :| id in w.networks && HasKey(w.networks[id], systemID, env);
      Some(w.networks[id])
    else None
  }

  /** ListActive: each active row once, in some order. */
  ghost predicate ListsActive(w: World, order: seq<Id>) {
    && (forall i :: 0 <= i < |order| ==> order[i] in w.networks && w.networks[order[i]].active)
    && (forall id :: id in w.networks && w.networks[id].active ==> id in order)
    && (forall i, j :: 0 <= i < j < |order| ==> order[i] != order[j])
  }

  function Rows(w: World, order: seq<Id>): (out: seq<Network>)
    requires forall i :: 0 <= i < |order| ==> order[i] in w.networks
    ensures |out| == |order| && forall i :: 0 <= i < |order| ==> out[i] == w.networks[order[i]]
  {
    seq(|order|, i requires 0 <= i < |order| => w.networks[order[i]])
  }

  function NextSync(rest: seq<Network>): Option<Phase> {
    if rest == [] then None else Some(Listing(rest[0], rest[1..]))
  }

  /** Validation and lookup: the first call an accepted request leads to. */
  ghost function Begin(w: World, req: Request): Option<Phase> {
    match req
    case Ensure(posture, systemID, env, ownerOrg, freshId) =>
      if systemID == "" || env == "" || ownerOrg == "" || !posture then None
      else
        var found := FindByKey(w, systemID, env);
        if found.None? then Some(Creating(Network(freshId, systemID, env, ownerOrg, true)))
        else if found.value.ownerOrg != ownerOrg then None
        else if !found.value.active then Some(Reviving(found.value))
        else Some(Listing(found.value, []))
    case Apply(posture, handle, specs) =>
      if posture && handle in w.networks && w.networks[handle].active && ValidPolicies(specs)
      then Some(Replacing(w.networks[handle], specs)) else None
    case Deprovision(handle) =>
      if handle in w.networks then Some(Dropping(w.networks[handle])) else None
    case SyncFor(systemID, env) =>
      var found := FindByKey(w, systemID, env);
      if found.Some? && found.value.active then Some(Listing(found.value, [])) else None
    case Restore(order) =>
      if ListsActive(w, order) then NextSync(Rows(w, order)) else None
  }

  /** One store or enforcer call of an operation on this host. DropSystem refuses where the chain is
      not installed (internal/infrastructure/netfabric/iptables_enforcer.go:311-323). */
  function Advance(w: World, host: Id, ph: Phase, inv: Inventory): (World, Option<Phase>) {
    var (id, slot) := (ph.n.id, Slot(host, ph.n.id));
    match ph
    case Creating(n) =>
      if id in w.networks || KeyTaken(w, n.systemID, n.env) then (w, None)
      else (w.(networks := w.networks[id := n]), Some(Listing(n, [])))
    case Reviving(n) =>
      if id !in w.networks then (w, None)
      else (w.(networks := w.networks[id := w.networks[id].(active := true)]), Some(Wiping(n.(active := true))))
    case Wiping(n) => (w.(policies := w.policies[id := []]), Some(Listing(n, [])))
    case Listing(n, rest) => (w, Some(Resolving(n, PoliciesOf(w, id), rest)))
    case Resolving(n, ps, rest) => (w, Some(Pushing(n, Compile(inv, n, ps), rest)))
    case Pushing(n, rules, rest) =>
      (w.(chains := w.chains[slot := rules], pushed := w.pushed + {Push(slot, rules)}), NextSync(rest))
    case Replacing(n, ps) => (w.(policies := w.policies[id := ps]), Some(Resolving(n, ps, [])))
    case Dropping(n) =>
      if slot !in w.chains then (w, None)
      else (w.(chains := w.chains - {slot}), Some(Clearing(n)))
    case Clearing(n) => (w.(policies := w.policies[id := []]), Some(Marking(n)))
    case Marking(n) =>
      if id !in w.networks then (w, None)
      else (w.(networks := w.networks[id := w.networks[id].(active := false)]), None)
  }

  /** A call touches its own network and its own host's chain of it, and nothing else. */
  lemma CallIsLocal(w: World, host: Id, ph: Phase, inv: Inventory)
    ensures var w' := Advance(w, host, ph, inv).0;
            && (forall id :: id != ph.n.id ==> (id in w'.networks <==> id in w.networks) && PoliciesOf(w', id) == PoliciesOf(w, id))
            && (forall id :: id != ph.n.id && id in w.networks ==> w'.networks[id] == w.networks[id])
            && (forall slot :: slot != Slot(host, ph.n.id) ==> (slot in w'.chains <==> slot in w.chains))
            && (forall slot :: slot != Slot(host, ph.n.id) && slot in w.chains ==> w'.chains[slot] == w.chains[slot])
  {
    hide Compile;
    hide KeyTaken;
  }

  // ---------------------------------------------------------------- runs

  datatype Thread = Thread(host: Id, ph: Phase)

  datatype System = System(w: World, threads: map<nat, Thread>)

  /** Spoil is a SyncSystem that fails after its flush: the chain is left empty. A reboot takes the
      host's chains and its operations with it. */
  datatype Move =
    | Start(t: nat, host: Id, req: Request)
    | Go(t: nat, inv: Inventory)
    | Spoil(t: nat)
    | Stop(t: nat)
    | Reboot(host: Id)

  function Without(s: System, t: nat): System { s.(threads := s.threads - {t}) }

  ghost function Do(s: System, m: Move): System {
    match m
    case Start(t, host, req) =>
      var ph := Begin(s.w, req);
      if t in s.threads || ph.None? then s else s.(threads := s.threads[t := Thread(host, ph.value)])
    case Go(t, inv) =>
      if t !in s.threads then s
      else
        var host := s.threads[t].host;
        var (w, ph) := Advance(s.w, host, s.threads[t].ph, inv);
        if ph.Some? then System(w, s.threads[t := Thread(host, ph.value)]) else Without(s.(w := w), t)
    case Spoil(t) =>
      if t !in s.threads || !s.threads[t].ph.Pushing? then s
      else
        var slot := Slot(s.threads[t].host, s.threads[t].ph.n.id);
        Without(s.(w := s.w.(chains := s.w.chains[slot := []])), t)
    case Stop(t) => Without(s, t)
    case Reboot(host) =>
      System(s.w.(chains := map slot | slot in s.w.chains && slot.host != host :: s.w.chains[slot]),
             map t | t in s.threads && s.threads[t].host != host :: s.threads[t])
  }

  ghost function After(s: System, moves: seq<Move>): System {
    if moves == [] then s else Do(After(s, moves[..|moves| - 1]), moves[|moves| - 1])
  }

  const INIT: System := System(EMPTY, map[])

  lemma AfterSnoc(s: System, moves: seq<Move>, m: Move)
    ensures After(s, moves + [m]) == Do(After(s, moves), m)
  {
    assert (moves + [m])[..|moves|] == moves;
  }

  lemma {:induction false} AfterConcat(s: System, a: seq<Move>, b: seq<Move>)
    ensures After(s, a + b) == After(After(s, a), b)
  {
    hide Do;
    if b == [] {
      assert a + b == a;
    } else {
      var k := |b| - 1;
      AfterConcat(s, a, b[..k]);
      assert (a + b)[..|a + b| - 1] == a + b[..k];
    }
  }

  lemma AfterNone(s: System, moves: seq<Move>)
    requires moves == []
    ensures After(s, moves) == s
  {}

  // ---------------------------------------------------------------- what every interleaving keeps

  ghost predicate SameScope(a: Network, b: Network) {
    a.id == b.id && a.systemID == b.systemID && a.env == b.env && a.ownerOrg == b.ownerOrg
  }

  ghost predicate Known(w: World, n: Network) { n.id in w.networks && SameScope(n, w.networks[n.id]) }

  ghost predicate SoundPhase(w: World, ph: Phase) {
    && (!ph.Creating? ==> Known(w, ph.n))
    && (ph.Creating? ==> ph.n.active && ph.n.systemID != "" && ph.n.ownerOrg != "")
    && (ph.Resolving? || ph.Replacing? ==> ValidPolicies(ph.ps))
    && (ph.Listing? || ph.Resolving? || ph.Pushing? ==>
          DistinctNets(ph.n, ph.rest) && forall i :: 0 <= i < |ph.rest| ==> Known(w, ph.rest[i]))
  }

  /** A restore visits each network once. */
  ghost predicate DistinctNets(n: Network, rest: seq<Network>) {
    && (forall i :: 0 <= i < |rest| ==> rest[i].id != n.id)
    && (forall i, j :: 0 <= i < j < |rest| ==> rest[i].id != rest[j].id)
  }

  ghost predicate SoundWorld(w: World) {
    && (forall id :: id in w.networks ==> w.networks[id].id == id && w.networks[id].systemID != "" && w.networks[id].ownerOrg != "")
    && (forall a, b :: a in w.networks && b in w.networks && HasKey(w.networks[a], w.networks[b].systemID, w.networks[b].env) ==> a == b)
    && (forall id :: id in w.policies ==> ValidPolicies(w.policies[id]))
  }

  ghost predicate Sound(s: System) {
    SoundWorld(s.w) && forall t :: t in s.threads ==> SoundPhase(s.w, s.threads[t].ph)
  }

  /** Rows are never deleted, re-keyed or handed to another organisation. */
  ghost predicate Keeps(w: World, w': World) {
    forall id :: id in w.networks ==> id in w'.networks && SameScope(w.networks[id], w'.networks[id])
  }

  lemma BeginSound(w: World, req: Request)
    requires SoundWorld(w) && Begin(w, req).Some?
    ensures SoundPhase(w, Begin(w, req).value)
  {
    hide ValidPolicies;
  }

  lemma KnownLater(w: World, w': World, n: Network)
    requires Keeps(w, w') && Known(w, n)
    ensures Known(w', n)
  {}

  lemma SoundLater(w: World, w': World, ph: Phase)
    requires Keeps(w, w') && SoundPhase(w, ph)
    ensures SoundPhase(w', ph)
  {
    hide ValidPolicies;
    hide Keeps;
    hide Known;
    forall n | Known(w, n) ensures Known(w', n) {
      KnownLater(w, w', n);
    }
  }

  /** Only three phases write the network table, each one row. */
  lemma AdvanceNetworks(w: World, host: Id, ph: Phase, inv: Inventory)
    ensures var (w', id) := (Advance(w, host, ph, inv).0, ph.n.id);
            || w'.networks == w.networks
            || (ph.Creating? && id !in w.networks && !KeyTaken(w, ph.n.systemID, ph.n.env) && w'.networks == w.networks[id := ph.n])
            || (id in w.networks && exists b :: w'.networks == w.networks[id := w.networks[id].(active := b)])
  {
    hide KeyTaken;
    hide Compile;
  }

  lemma AdvanceKeeps(w: World, host: Id, ph: Phase, inv: Inventory)
    requires SoundWorld(w)
    ensures Keeps(w, Advance(w, host, ph, inv).0)
  {
    hide ValidPolicies;
    hide KeyTaken;
    hide Advance;
    AdvanceNetworks(w, host, ph, inv);
  }

  lemma NetworksStaySound(w: World, host: Id, ph: Phase, inv: Inventory)
    requires SoundWorld(w) && SoundPhase(w, ph)
    ensures var w' := Advance(w, host, ph, inv).0;
            && (forall id :: id in w'.networks ==> w'.networks[id].id == id && w'.networks[id].systemID != "" && w'.networks[id].ownerOrg != "")
            && (forall a, b :: a in w'.networks && b in w'.networks && HasKey(w'.networks[a], w'.networks[b].systemID, w'.networks[b].env) ==> a == b)
  {
    hide ValidPolicies;
    hide Advance;
    AdvanceNetworks(w, host, ph, inv);
  }

  lemma PoliciesStayValid(w: World, host: Id, ph: Phase, inv: Inventory)
    requires SoundWorld(w) && SoundPhase(w, ph)
    ensures var w' := Advance(w, host, ph, inv).0;
            forall id :: id in w'.policies ==> ValidPolicies(w'.policies[id])
  {
    hide Compile;
    hide KeyTaken;
    hide ValidPolicies;
    NoneIsValid();
  }

  lemma AdvanceSoundWorld(w: World, host: Id, ph: Phase, inv: Inventory)
    requires SoundWorld(w) && SoundPhase(w, ph)
    ensures SoundWorld(Advance(w, host, ph, inv).0)
  {
    hide Advance;
    hide SoundPhase;
    hide ValidPolicies;
    NetworksStaySound(w, host, ph, inv);
    PoliciesStayValid(w, host, ph, inv);
  }

  lemma AdvanceSoundPhase(w: World, host: Id, ph: Phase, inv: Inventory)
    requires SoundWorld(w) && SoundPhase(w, ph) && Advance(w, host, ph, inv).1.Some?
    ensures SoundPhase(w, Advance(w, host, ph, inv).1.value) || ph.Creating?
    ensures ph.Creating? ==> SoundPhase(Advance(w, host, ph, inv).0, Advance(w, host, ph, inv).1.value)
  {
    hide Compile;
    hide KeyTaken;
    hide ValidPolicies;
    NoneIsValid();
  }

  lemma NoneIsValid()
    ensures ValidPolicies([])
  {}

  lemma GoSound(s: System, t: nat, inv: Inventory)
    requires Sound(s) && t in s.threads
    ensures Sound(Do(s, Go(t, inv))) && Keeps(s.w, Do(s, Go(t, inv)).w)
  {
    hide SoundWorld;
    hide SoundPhase;
    hide Keeps;
    hide Advance;
    var th := s.threads[t];
    AdvanceKeeps(s.w, th.host, th.ph, inv);
    AdvanceSoundWorld(s.w, th.host, th.ph, inv);
    var (w', ph') := Advance(s.w, th.host, th.ph, inv);
    if ph'.Some? {
      AdvanceSoundPhase(s.w, th.host, th.ph, inv);
      if !th.ph.Creating? {
        SoundLater(s.w, w', ph'.value);
      }
    }
    forall u | u in s.threads ensures SoundPhase(w', s.threads[u].ph) {
      SoundLater(s.w, w', s.threads[u].ph);
    }
  }

  lemma SoundSameTables(w: World, w': World, ph: Phase)
    requires w'.networks == w.networks && w'.policies == w.policies
    ensures SoundWorld(w) ==> SoundWorld(w')
    ensures SoundPhase(w, ph) ==> SoundPhase(w', ph)
    ensures Keeps(w, w')
  {
    hide ValidPolicies;
  }

  lemma DoSound(s: System, m: Move)
    requires Sound(s)
    ensures Sound(Do(s, m)) && Keeps(s.w, Do(s, m).w)
  {
    hide SoundWorld;
    hide SoundPhase;
    hide Begin;
    hide Advance;
    hide Keeps;
    assert Keeps(s.w, s.w) by { SoundSameTables(s.w, s.w, Dropping(Network(0, "", "", "", true))); }
    if m.Start? && Begin(s.w, m.req).Some? {
      BeginSound(s.w, m.req);
    } else if m.Go? && m.t in s.threads {
      GoSound(s, m.t, m.inv);
    } else if m.Spoil? || m.Reboot? {
      var s' := Do(s, m);
      SoundSameTables(s.w, s'.w, Dropping(Network(0, "", "", "", true)));
      forall t | t in s'.threads ensures SoundPhase(s'.w, s'.threads[t].ph) {
        SoundSameTables(s.w, s'.w, s.threads[t].ph);
      }
    }
  }

  lemma {:induction false} AfterSound(s: System, moves: seq<Move>)
    requires Sound(s)
    ensures Sound(After(s, moves)) && Keeps(s.w, After(s, moves).w)
  {
    hide SoundWorld;
    hide SoundPhase;
    hide Do;
    if moves != [] {
      var k := |moves| - 1;
      AfterSound(s, moves[..k]);
      DoSound(After(s, moves[..k]), moves[k]);
    }
  }

  lemma InitSound()
    ensures Sound(INIT)
  {}

  /** A scope is permanent: once a (system, env) has a row, that row keeps its id, key and owning
      organisation for ever, and no second row ever takes the key. */
  lemma ScopesArePermanent(moves: seq<Move>, more: seq<Move>, id: Id)
    requires id in After(INIT, moves).w.networks
    ensures var (n, later) := (After(INIT, moves).w.networks[id], After(INIT, moves + more).w.networks);
            && id in later && SameScope(n, later[id])
            && forall other :: other in later && HasKey(later[other], n.systemID, n.env) ==> other == id
  {
    hide Do;
    InitSound();
    AfterSound(INIT, moves);
    AfterSound(After(INIT, moves), more);
    AfterConcat(INIT, moves, more);
  }
}
