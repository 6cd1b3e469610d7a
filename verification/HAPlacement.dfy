/** Failure domains and the placement test for the highly available tier
    (internal/domain/fleet_failure_domain.go:25-94, internal/domain/fleet_availability.go:174-222). */
module HAPlacement {
  import opened Text

  // ---------------------------------------------------------------- failure domains

  datatype FailureDomain = FailureDomain(site: string, power: string, network: string)

  datatype DomainError = DomainRequired | DomainInvalid

  const UNATTESTED: string := "unattested"
  const SEGMENTS: nat := 3

  predicate SegmentChar(c: char) { IsLower(c) || IsDigit(c) || c == '-' }

  /** ^[a-z0-9][a-z0-9-]*$ */
  predicate IsSegment(p: string) {
    p != "" && p[0] != '-' && forall i :: 0 <= i < |p| ==> SegmentChar(p[i])
  }

  function ParseFailureDomain(s: string): Result<FailureDomain, DomainError> {
    if Blank(s) then Err(DomainRequired)
    else
      var parts := Split(s, '/');
      if |parts| != SEGMENTS then Err(DomainInvalid)
      else if exists i :: 0 <= i < |parts| && !IsSegment(parts[i]) then Err(DomainInvalid)
      else Ok(FailureDomain(parts[0], parts[1], parts[2]))
  }

  function Print(d: FailureDomain): string { d.site + "/" + d.power + "/" + d.network }

  predicate ValidDomain(d: FailureDomain) { IsSegment(d.site) && IsSegment(d.power) && IsSegment(d.network) }

  lemma PrintIsJoin(d: FailureDomain)
    ensures Print(d) == Join([d.site, d.power, d.network], '/')
  {
    var parts := [d.site, d.power, d.network];
    assert parts[1..] == [d.power, d.network] && parts[1..][1..] == [d.network];
    assert Join(parts[1..], '/') == d.power + ['/'] + d.network;
    assert Join(parts, '/') == d.site + ['/'] + (d.power + ['/'] + d.network);
  }

  /** A legal segment, character by character. */
  ghost predicate SegmentText(p: string) {
    && 1 <= |p| && ('a' <= p[0] <= 'z' || '0' <= p[0] <= '9')
    && forall i :: 0 <= i < |p| ==> 'a' <= p[i] <= 'z' || '0' <= p[i] <= '9' || p[i] == '-'
  }

  lemma SegmentExact(p: string)
    ensures IsSegment(p) <==> SegmentText(p)
  {}

  /** Exactly the texts site/power/network of three legal segments are failure domains; of the others, a
      text of white space is missing and anything else invalid. */
  lemma DomainParsesIff(s: string)
    ensures ParseFailureDomain(s).Ok? <==>
            exists a, b, c :: SegmentText(a) && SegmentText(b) && SegmentText(c) && s == a + "/" + b + "/" + c
    ensures ParseFailureDomain(s) == Err(DomainRequired) <==> forall i :: 0 <= i < |s| ==> IsSpace(s[i])
  {
    hide SegmentText;
    hide Split;
    hide IsSegment;
    if ParseFailureDomain(s).Ok? {
      var d := ParseFailureDomain(s).value;
      ParsedDomainPrints(s);
      SegmentExact(d.site);
      SegmentExact(d.power);
      SegmentExact(d.network);
      assert s == d.site + "/" + d.power + "/" + d.network;
    }
    forall a, b, c | SegmentText(a) && SegmentText(b) && SegmentText(c) && s == a + "/" + b + "/" + c
      ensures ParseFailureDomain(s).Ok?
    {
      SegmentExact(a);
      SegmentExact(b);
      SegmentExact(c);
      PrintedDomainParses(FailureDomain(a, b, c));
    }
  }

  /** A parsed domain prints back to the very text it was parsed from. */
  lemma ParsedDomainPrints(s: string)
    requires ParseFailureDomain(s).Ok?
    ensures Print(ParseFailureDomain(s).value) == s && ValidDomain(ParseFailureDomain(s).value)
  {
    var parts := Split(s, '/');
    JoinSplit(s, '/');
    PrintIsJoin(ParseFailureDomain(s).value);
    assert parts == [parts[0], parts[1], parts[2]];
  }

  /** Every triple of legal segments is the parse of its printed form. */
  lemma PrintedDomainParses(d: FailureDomain)
    requires ValidDomain(d)
    ensures ParseFailureDomain(Print(d)) == Ok(d)
  {
    var parts := [d.site, d.power, d.network];
    PrintIsJoin(d);
    SplitJoin(parts, '/');
    assert Print(d)[0] == d.site[0] && !IsSpace(Print(d)[0]);
  }

  /** Comparing stored texts is comparing site, power and network. */
  lemma SameTextSameDomain(a: string, b: string)
    requires ParseFailureDomain(a).Ok? && ParseFailureDomain(b).Ok?
    ensures a == b <==> ParseFailureDomain(a) == ParseFailureDomain(b)
  {
    ParsedDomainPrints(a);
    ParsedDomainPrints(b);
  }

  /** The backfilled marker is not a domain, and neither is anything with fewer facts. */
  lemma UnattestedIsNoDomain()
    ensures ParseFailureDomain(UNATTESTED) == Err(DomainInvalid) && ParseFailureDomain("") == Err(DomainRequired)
  {
    SplitWord(UNATTESTED, '/');
    assert !IsSpace(UNATTESTED[0]);
  }

  // ---------------------------------------------------------------- the placement test

  datatype Host = Host(region: string, failureDomain: string)

  datatype Placement = Accepted | HostsInsufficient | DomainUnattested | RegionSplit | DomainShared

  predicate Attested(h: Host) { ParseFailureDomain(h.failureDomain).Ok? }

  predicate Candidate(h: Host) { Attested(h) && h.region != "" }

  function Candidates(hosts: seq<Host>): (out: seq<Host>)
    ensures forall h :: h in out <==> h in hosts && Candidate(h)
  {
    if hosts == [] then []
    else
      var k := |hosts| - 1;
      Candidates(hosts[..k]) + if Candidate(hosts[k]) then [hosts[k]] else []
  }

  ghost predicate HasPair(hosts: seq<Host>) {
    exists a, b :: a in hosts && b in hosts && Candidate(a) && Candidate(b)
                   && a.region == b.region && a.failureDomain != b.failureDomain
  }

  ghost predicate HasTwoDomains(hosts: seq<Host>) {
    exists a, b :: a in hosts && b in hosts && Candidate(a) && Candidate(b) && a.failureDomain != b.failureDomain
  }

  ghost function Verdict(hosts: seq<Host>): Placement {
    if |Candidates(hosts)| < 2 then (if |hosts| >= 2 then DomainUnattested else HostsInsufficient)
    else if HasPair(hosts) then Accepted
    else if HasTwoDomains(hosts) then RegionSplit
    else DomainShared
  }

  method RequireHAPlacement(hosts: seq<Host>) returns (v: Placement)
    ensures v == Verdict(hosts)
  {
    hide Candidates;
    hide HasPair;
    hide HasTwoDomains;
    hide GroupsBy;
    var candidates := SelectCandidates(hosts);
    if |candidates| < 2 {
      return if |hosts| >= 2 then DomainUnattested else HostsInsufficient;
    }
    var domainsByRegion := GroupByRegion(candidates);
    var allDomains := DomainsOf(candidates);
    var paired := AnyPair(candidates, domainsByRegion);
    PairAmong(hosts, candidates);
    if paired { return Accepted; }
    DomainPairs(candidates, allDomains);
    return if |allDomains| >= 2 then RegionSplit else DomainShared;
  }

  method SelectCandidates(hosts: seq<Host>) returns (candidates: seq<Host>)
    ensures candidates == Candidates(hosts)
  {
    hide Attested;
    candidates := [];
    for i := 0 to |hosts|
      invariant candidates == Candidates(hosts[..i])
    {
      assert hosts[..i + 1][..i] == hosts[..i];
      if !Attested(hosts[i]) { continue; }
      if hosts[i].region == "" { continue; }
      candidates := candidates + [hosts[i]];
    }
    assert hosts[..|hosts|] == hosts;
  }

  lemma DomainPairs(candidates: seq<Host>, all: set<string>)
    requires forall d :: d in all <==> exists h :: h in candidates && h.failureDomain == d
    ensures |all| >= 2 <==> exists a, b :: a in candidates && b in candidates && a.failureDomain != b.failureDomain
  {
    TwoMembers(all);
    if d, e :| d in all && e in all && d != e {
      var a :| a in candidates && a.failureDomain == d;
      var b :| b in candidates && b.failureDomain == e;
    }
    assert forall h :: h in candidates ==> h.failureDomain in all;
  }

  method DomainsOf(candidates: seq<Host>) returns (all: set<string>)
    ensures forall d :: d in all <==> exists h :: h in candidates && h.failureDomain == d
  {
    all := {};
    for i := 0 to |candidates|
      invariant forall d :: d in all <==> exists h :: h in candidates[..i] && h.failureDomain == d
    {
      all := all + {candidates[i].failureDomain};
      assert candidates[..i + 1] == candidates[..i] + [candidates[i]];
    }
    assert candidates[..|candidates|] == candidates;
  }

  ghost predicate GroupsBy(candidates: seq<Host>, byRegion: map<string, set<string>>) {
    forall r, d :: Grouped(byRegion, r, d) <==> Names(candidates, r, d)
  }

  predicate Grouped(byRegion: map<string, set<string>>, r: string, d: string) { r in byRegion && d in byRegion[r] }

  predicate Names(hosts: seq<Host>, r: string, d: string) {
    exists h :: h in hosts && h.region == r && h.failureDomain == d
  }

  method GroupByRegion(candidates: seq<Host>) returns (byRegion: map<string, set<string>>)
    ensures GroupsBy(candidates, byRegion)
  {
    byRegion := map[];
    for i := 0 to |candidates|
      invariant GroupsBy(candidates[..i], byRegion)
    {
      var h := candidates[i];
      ghost var before := byRegion;
      if h.region !in byRegion {
        byRegion := byRegion[h.region := {}];
      }
      byRegion := byRegion[h.region := byRegion[h.region] + {h.failureDomain}];
      GroupOneMore(candidates, i, before, byRegion);
    }
    assert candidates[..|candidates|] == candidates;
  }

  lemma GroupOneMore(candidates: seq<Host>, i: nat, before: map<string, set<string>>, after: map<string, set<string>>)
    requires i < |candidates| && GroupsBy(candidates[..i], before)
    requires var h := candidates[i];
             after == before[h.region := (if h.region in before then before[h.region] else {}) + {h.failureDomain}]
    ensures GroupsBy(candidates[..i + 1], after)
  {
    var h := candidates[i];
    var (seen, more) := (candidates[..i], candidates[..i + 1]);
    assert more == seen + [h];
    assert forall g :: g in more <==> g in seen || g == h;
    forall r, d ensures Grouped(after, r, d) <==> Names(more, r, d) {
      assert Grouped(before, r, d) <==> Names(seen, r, d);
    }
  }

  method AnyPair(candidates: seq<Host>, byRegion: map<string, set<string>>) returns (paired: bool)
    requires GroupsBy(candidates, byRegion)
    ensures paired <==> exists a, b :: a in candidates && b in candidates && a.region == b.region && a.failureDomain != b.failureDomain
  {
    var todo := byRegion.Keys;
    while todo != {}
      invariant todo <= byRegion.Keys
      invariant forall r :: r in byRegion && r !in todo ==> |byRegion[r]| < 2
      decreases todo
    {
      var r :| r in todo;
      todo := todo - {r};
      TwoMembers(byRegion[r]);
      if |byRegion[r]| >= 2 {
        ghost var d, e :| d in byRegion[r] && e in byRegion[r] && d != e;
        assert Grouped(byRegion, r, d) && Grouped(byRegion, r, e);
        ghost var a :| a in candidates && a.region == r && a.failureDomain == d;
        ghost var b :| b in candidates && b.region == r && b.failureDomain == e;
        return true;
      }
    }
    forall a, b | a in candidates && b in candidates && a.region == b.region ensures a.failureDomain == b.failureDomain {
      assert Names(candidates, a.region, a.failureDomain) && Names(candidates, a.region, b.failureDomain);
      assert Grouped(byRegion, a.region, a.failureDomain) && Grouped(byRegion, a.region, b.failureDomain);
      TwoMembers(byRegion[a.region]);
    }
    return false;
  }

  lemma TwoMembers(s: set<string>)
    ensures |s| >= 2 <==> exists d, e :: d in s && e in s && d != e
  {
    if |s| >= 2 {
      var d :| d in s;
      var rest := s - {d};
      assert |rest| >= 1;
      var e :| e in rest;
      assert d in s && e in s && d != e;
    } else if d, e :| d in s && e in s && d != e {
      assert {d, e} <= s && |{d, e}| == 2;
      SubsetSize({d, e}, s);
    }
  }

  lemma PairAmong(hosts: seq<Host>, candidates: seq<Host>)
    requires candidates == Candidates(hosts)
    ensures HasPair(hosts) <==> exists a, b :: a in candidates && b in candidates && a.region == b.region && a.failureDomain != b.failureDomain
    ensures HasTwoDomains(hosts) <==> exists a, b :: a in candidates && b in candidates && a.failureDomain != b.failureDomain
  {
    hide Candidate;
  }

  // ---------------------------------------------------------------- what the verdicts mean

  /** Two hosts in one non-empty region whose attested site, power and network are not all equal. */
  ghost predicate FatesApart(a: Host, b: Host) {
    && Attested(a) && Attested(b) && a.region == b.region && a.region != ""
    && ParseFailureDomain(a.failureDomain) != ParseFailureDomain(b.failureDomain)
  }

  lemma TwoOf(s: seq<Host>, a: Host, b: Host)
    requires a in s && b in s && a != b
    ensures |s| >= 2
  {
    var i :| 0 <= i < |s| && s[i] == a;
    var j :| 0 <= j < |s| && s[j] == b;
    assert i != j;
  }

  lemma {:induction false} CandidatesFit(hosts: seq<Host>)
    ensures |Candidates(hosts)| <= |hosts|
  {
    if hosts != [] {
      CandidatesFit(hosts[..|hosts| - 1]);
    }
  }

  /** The test accepts if and only if two hosts share a non-empty region and have different attested
      failure domains. */
  lemma AcceptsIff(hosts: seq<Host>)
    ensures Verdict(hosts) == Accepted <==> exists a, b :: a in hosts && b in hosts && FatesApart(a, b)
  {
    hide ParseFailureDomain;
    hide Candidates;
    forall a, b | a in hosts && b in hosts && Candidate(a) && Candidate(b) && a.region == b.region
      ensures FatesApart(a, b) <==> a.failureDomain != b.failureDomain
      ensures a.failureDomain != b.failureDomain ==> |Candidates(hosts)| >= 2
    {
      SameTextSameDomain(a.failureDomain, b.failureDomain);
      if a.failureDomain != b.failureDomain {
        assert a in Candidates(hosts) && b in Candidates(hosts);
        TwoOf(Candidates(hosts), a, b);
      }
    }
    assert forall a, b :: FatesApart(a, b) ==> Candidate(a) && Candidate(b) && a.region == b.region;
  }

  /** Each refusal, exactly: too few machines; enough machines but fewer than two that state both a
      region and a domain; at least two such, with two domains but never inside one region; at least
      two such, all naming one domain. */
  lemma RefusalsExact(hosts: seq<Host>)
    ensures Verdict(hosts) == HostsInsufficient <==> |hosts| < 2
    ensures Verdict(hosts) == DomainUnattested <==> |hosts| >= 2 && |Candidates(hosts)| < 2
    ensures Verdict(hosts) == RegionSplit <==>
              (HasTwoDomains(hosts) && !exists a, b :: a in hosts && b in hosts && FatesApart(a, b))
    ensures Verdict(hosts) == DomainShared <==> |Candidates(hosts)| >= 2 && !HasTwoDomains(hosts)
  {
    hide Candidate;
    hide FatesApart;
    AcceptsIff(hosts);
    CandidatesFit(hosts);
    if HasTwoDomains(hosts) {
      var a, b :| a in hosts && b in hosts && Candidate(a) && Candidate(b) && a.failureDomain != b.failureDomain;
      TwoOf(Candidates(hosts), a, b);
    }
  }

  lemma {:induction false} CandidateCount(hosts: seq<Host>, h: Host)
    ensures multiset(Candidates(hosts))[h] == if Candidate(h) then multiset(hosts)[h] else 0
  {
    hide Candidate;
    if hosts != [] {
      var k := |hosts| - 1;
      CandidateCount(hosts[..k], h);
      assert hosts == hosts[..k] + [hosts[k]];
    }
  }

  /** The answer does not depend on the order of the hosts. */
  lemma OrderIndependent(a: seq<Host>, b: seq<Host>)
    requires multiset(a) == multiset(b)
    ensures Verdict(a) == Verdict(b)
  {
    hide Candidate;
    hide Candidates;
    assert multiset(Candidates(a)) == multiset(Candidates(b)) by {
      forall h ensures multiset(Candidates(a))[h] == multiset(Candidates(b))[h] {
        CandidateCount(a, h);
        CandidateCount(b, h);
      }
    }
    assert |multiset(Candidates(a))| == |Candidates(a)| && |multiset(Candidates(b))| == |Candidates(b)|;
    assert |multiset(a)| == |a| && |multiset(b)| == |b|;
    assert forall h :: h in a <==> h in multiset(a);
    assert forall h :: h in b <==> h in multiset(b);
    assert forall h :: h in a <==> h in b;
  }
}
