/** The permanent customer-facing name of a database: validation, minting and the hostname
    (internal/domain/resource_endpoint.go:43-289; sections 2.3.1 and 2.3.4 of RFC 1035, section 2.1
    of RFC 1123). */
module ResourceEndpoint {
  import opened Text
  import opened HostNames

  const NUMBER_SPACE: nat := 10000
  const DNS_NAME_MAX: nat := 253

  datatype Endpoint = Endpoint(id: string, region: string, zone: string)

  datatype Naming = Naming(zone: string, region: string)

  datatype EndpointError =
    | ZoneRequired | ZoneInvalid | RegionRequired | RegionInvalid | IDInvalid | HostTooLong | MintFailed

  // ---------------------------------------------------------------- validators

  /** <adjective>-<noun>-<4 digits>, checked by structure and not against the word lists. */
  predicate IDShape(id: string) {
    var parts := Split(id, '-');
    && |parts| == 3
    && parts[0] != "" && AllLower(parts[0]) && parts[1] != "" && AllLower(parts[1])
    && |parts[2]| == 4 && AllDigits(parts[2])
  }

  function IDProblem(id: string): Option<EndpointError> {
    if IDShape(id) && LegalLabel(id) then None else Some(IDInvalid)
  }

  function RegionProblem(region: string): Option<EndpointError> {
    if region == "" then Some(RegionRequired)
    else if '.' in region || !LegalLabel(region) then Some(RegionInvalid)
    else None
  }

  predicate AllLegal(parts: seq<string>) { forall i :: 0 <= i < |parts| ==> LegalLabel(parts[i]) }

  function ZoneProblem(zone: string): Option<EndpointError> {
    if zone == "" then Some(ZoneRequired)
    else if |Split(zone, '.')| < 2 then Some(ZoneInvalid)
    else if !AllLegal(Split(zone, '.')) then Some(ZoneInvalid)
    else if |zone| > DNS_NAME_MAX then Some(ZoneInvalid)
    else None
  }

  function NamingProblem(n: Naming): Option<EndpointError> {
    if Blank(n.zone) then Some(ZoneRequired)
    else if Blank(n.region) then Some(RegionRequired)
    else if ZoneProblem(n.zone).Some? then ZoneProblem(n.zone)
    else RegionProblem(n.region)
  }

  function Host(e: Endpoint): string { e.id + "." + e.region + "." + e.zone }

  function NewEndpoint(id: string, region: string, zone: string): Result<Endpoint, EndpointError> {
    if IDProblem(id).Some? then Err(IDProblem(id).value)
    else if RegionProblem(region).Some? then Err(RegionProblem(region).value)
    else if ZoneProblem(zone).Some? then Err(ZoneProblem(zone).value)
    else if |Host(Endpoint(id, region, zone))| > DNS_NAME_MAX then Err(HostTooLong)
    else Ok(Endpoint(id, region, zone))
  }

  predicate Valid(e: Endpoint) { NewEndpoint(e.id, e.region, e.zone).Ok? }

  // ---------------------------------------------------------------- minting

  function Zeros(n: nat): (out: string)
    ensures |out| == n && forall i :: 0 <= i < n ==> out[i] == '0'
  {
    seq(n, _ => '0')
  }

  /** fmt's %04d. */
  function Pad4(n: nat): string { Zeros(if |Dec(n)| < 4 then 4 - |Dec(n)| else 0) + Dec(n) }

  function EndpointID(adjective: string, noun: string, number: nat): string {
    adjective + "-" + noun + "-" + Pad4(number)
  }

  /** What the entropy source answers, draw by draw; None is a failed read. */
  datatype Draws = Draws(adjective: Option<nat>, noun: Option<nat>, number: Option<nat>)

  function Pick(words: seq<string>, draw: Option<nat>): Option<string> {
    if draw.Some? && draw.value < |words| then Some(words[draw.value]) else None
  }

  function Mint(n: Naming, adjectives: seq<string>, nouns: seq<string>, d: Draws): Result<Endpoint, EndpointError> {
    if NamingProblem(n).Some? then Err(NamingProblem(n).value)
    else if Pick(adjectives, d.adjective).None? then Err(MintFailed)
    else if Pick(nouns, d.noun).None? then Err(MintFailed)
    else if d.number.None? || d.number.value >= NUMBER_SPACE then Err(MintFailed)
    else
      NewEndpoint(EndpointID(Pick(adjectives, d.adjective).value, Pick(nouns, d.noun).value, d.number.value),
                  n.region, n.zone)
  }

  predicate ShortWord(w: string) { w != "" && AllLower(w) }

  /** Lists of lowercase words of which any two, two hyphens and four digits fit in a label. */
  predicate ShortWords(adjectives: seq<string>, nouns: seq<string>) {
    && (forall i :: 0 <= i < |adjectives| ==> ShortWord(adjectives[i]))
    && (forall i :: 0 <= i < |nouns| ==> ShortWord(nouns[i]))
    && (forall i, j :: 0 <= i < |adjectives| && 0 <= j < |nouns| ==> |adjectives[i]| + |nouns[j]| + 6 <= DNS_LABEL_MAX)
  }

  lemma {:induction false} DecLength(n: nat, width: nat, bound: nat)
    requires width >= 1 && bound == Pow10(width) && n < bound
    ensures |Dec(n)| <= width
    decreases width
  {
    if n >= 10 {
      DecLength(n / 10, width - 1, Pow10(width - 1));
    }
  }

  function Pow10(k: nat): nat { if k == 0 then 1 else 10 * Pow10(k - 1) }

  lemma {:induction false} ZerosDoNotCount(k: nat, s: string)
    requires AllDigits(s)
    ensures AllDigits(Zeros(k) + s) && DecVal(Zeros(k) + s) == DecVal(s)
    decreases |s|
  {
    var t := Zeros(k) + s;
    if s == "" {
      assert t == Zeros(k);
      OnlyZeros(k);
    } else {
      ZerosDoNotCount(k, s[..|s| - 1]);
      assert t[..|t| - 1] == Zeros(k) + s[..|s| - 1];
    }
  }

  lemma {:induction false} OnlyZeros(k: nat)
    ensures AllDigits(Zeros(k)) && DecVal(Zeros(k)) == 0
  {
    if k > 0 {
      OnlyZeros(k - 1);
      assert Zeros(k)[..k - 1] == Zeros(k - 1);
    }
  }

  /** The suffix is four digits that read back as the number drawn. */
  lemma SuffixFacts(n: nat)
    requires n < NUMBER_SPACE
    ensures |Pad4(n)| == 4 && AllDigits(Pad4(n)) && DecVal(Pad4(n)) == n
  {
    assert Pow10(1) == 10 && Pow10(2) == 100 && Pow10(3) == 1000 && Pow10(4) == 10000;
    DecLength(n, 4, NUMBER_SPACE);
    ZerosDoNotCount(4 - |Dec(n)|, Dec(n));
    DecRoundTrip(n);
  }

  lemma IDParts(adjective: string, noun: string, number: nat)
    requires ShortWord(adjective) && ShortWord(noun) && number < NUMBER_SPACE
    ensures Split(EndpointID(adjective, noun, number), '-') == [adjective, noun, Pad4(number)]
  {
    SuffixFacts(number);
    var parts := [adjective, noun, Pad4(number)];
    assert parts[1..] == [noun, Pad4(number)] && parts[1..][1..] == [Pad4(number)];
    assert Join(parts[1..], '-') == noun + ['-'] + Pad4(number);
    assert Join(parts, '-') == adjective + ['-'] + (noun + ['-'] + Pad4(number));
    assert EndpointID(adjective, noun, number) == Join(parts, '-');
    assert forall i :: 0 <= i < |parts| ==> '-' !in parts[i];
    SplitJoin(parts, '-');
  }

  lemma MintedIDIsValid(adjective: string, noun: string, number: nat)
    requires ShortWord(adjective) && ShortWord(noun) && number < NUMBER_SPACE
    requires |adjective| + |noun| + 6 <= DNS_LABEL_MAX
    ensures IDProblem(EndpointID(adjective, noun, number)).None?
  {
    hide Split;
    hide Pad4;
    var id := EndpointID(adjective, noun, number);
    IDParts(adjective, noun, number);
    SuffixFacts(number);
    assert id[0] == adjective[0] && id[|id| - 1] == Pad4(number)[3];
    assert forall i :: 0 <= i < |id| ==> LabelChar(id[i]);
  }

  /** In a valid naming context, with short lowercase word lists and working entropy, a mint fails
      exactly when the whole name would be too long; otherwise it is the drawn id in that context. */
  lemma MintFailsOnlyOnLength(n: Naming, adjectives: seq<string>, nouns: seq<string>, i: nat, j: nat, k: nat)
    requires NamingProblem(n).None? && ShortWords(adjectives, nouns)
    requires i < |adjectives| && j < |nouns| && k < NUMBER_SPACE
    ensures var out := Mint(n, adjectives, nouns, Draws(Some(i), Some(j), Some(k)));
            var id := EndpointID(adjectives[i], nouns[j], k);
            out == if |id| + |n.region| + |n.zone| + 2 > 253 then Err(HostTooLong)
                   else Ok(Endpoint(id, n.region, n.zone))
  {
    hide IDProblem;
    hide ZoneProblem;
    hide RegionProblem;
    hide EndpointID;
    MintedIDIsValid(adjectives[i], nouns[j], k);
  }

  /** Without a naming context, or without all three draws, nothing is minted, and the error says which. */
  lemma MintNeedsContextAndDraws(n: Naming, adjectives: seq<string>, nouns: seq<string>, d: Draws)
    requires ShortWords(adjectives, nouns)
    ensures var out := Mint(n, adjectives, nouns, d);
            var drawn := && d.adjective.Some? && d.adjective.value < |adjectives| && d.noun.Some? && d.noun.value < |nouns|
                         && d.number.Some? && d.number.value < 10000;
            && (NamingProblem(n).Some? ==> out == Err(NamingProblem(n).value))
            && (NamingProblem(n).None? ==> (out == Err(MintFailed) <==> !drawn))
  {
    hide NamingProblem;
    if NamingProblem(n).None? && d.adjective.Some? && d.adjective.value < |adjectives| && d.noun.Some? && d.noun.value < |nouns|
       && d.number.Some? && d.number.value < 10000 {
      MintFailsOnlyOnLength(n, adjectives, nouns, d.adjective.value, d.noun.value, d.number.value);
    }
  }

  /** Different draws give different ids: the words and the number can be read off the id. */
  lemma DistinctDraws(a: string, n: string, k: nat, a': string, n': string, k': nat)
    requires ShortWord(a) && ShortWord(n) && k < NUMBER_SPACE
    requires ShortWord(a') && ShortWord(n') && k' < NUMBER_SPACE
    ensures EndpointID(a, n, k) == EndpointID(a', n', k') <==> a == a' && n == n' && k == k'
  {
    hide EndpointID;
    hide ShortWord;
    IDParts(a, n, k);
    IDParts(a', n', k');
    SuffixFacts(k);
    SuffixFacts(k');
    if EndpointID(a, n, k) == EndpointID(a', n', k') {
      var parts := Split(EndpointID(a, n, k), '-');
      assert parts[0] == a && parts[0] == a' && parts[1] == n && parts[1] == n';
      assert parts[2] == Pad4(k) && parts[2] == Pad4(k');
    }
  }

  // ---------------------------------------------------------------- the hostname

  /** Reading an endpoint back off its hostname. */
  function Recover(host: string): Option<Endpoint> {
    var parts := Split(host, '.');
    if |parts| < 3 then None else Some(Endpoint(parts[0], parts[1], Join(parts[2..], '.')))
  }

  lemma {:induction false} LegalHasNoDot(s: string)
    requires LegalLabel(s)
    ensures '.' !in s
  {}

  lemma HostLabels(e: Endpoint)
    requires '.' !in e.id && '.' !in e.region
    ensures Split(Host(e), '.') == [e.id, e.region] + Split(e.zone, '.')
  {
    hide Split;
    SplitAtSeparator(e.region, '.', e.zone);
    SplitAtSeparator(e.id, '.', e.region + ['.'] + e.zone);
    assert Host(e) == e.id + ['.'] + (e.region + ['.'] + e.zone);
    assert [e.id] + ([e.region] + Split(e.zone, '.')) == [e.id, e.region] + Split(e.zone, '.');
  }

  /** The hostname of a valid endpoint determines it: id, region and zone can be recovered. */
  lemma HostRoundTrip(e: Endpoint)
    requires Valid(e)
    ensures Recover(Host(e)) == Some(e)
  {
    hide Split;
    hide Join;
    hide LegalLabel;
    LegalHasNoDot(e.id);
    LegalHasNoDot(e.region);
    HostLabels(e);
    JoinSplit(e.zone, '.');
    assert ([e.id, e.region] + Split(e.zone, '.'))[2..] == Split(e.zone, '.');
  }

  lemma HostInjective(a: Endpoint, b: Endpoint)
    requires Valid(a) && Valid(b) && Host(a) == Host(b)
    ensures a == b
  {
    HostRoundTrip(a);
    HostRoundTrip(b);
  }

  /** A whole name within the wire limits. */
  ghost predicate LegalName(host: string) { |host| <= 253 && AllLegal(Split(host, '.')) }

  lemma ShapeHasNoDot(id: string)
    requires IDShape(id)
    ensures '.' !in id
  {
    var parts := Split(id, '-');
    JoinSplit(id, '-');
    assert parts[1..][1..] == [parts[2]];
    assert Join(parts[1..], '-') == parts[1] + ['-'] + parts[2];
    assert id == parts[0] + ['-'] + (parts[1] + ['-'] + parts[2]);
    assert forall i :: 0 <= i < 3 ==> '.' !in parts[i];
  }

  lemma {:induction false} PartsFit(s: string, sep: char)
    ensures |s| == 0 ==> Split(s, sep) == [""]
    ensures Split(s, sep) == [""] ==> s == ""
  {
    JoinSplit(s, sep);
  }

  /** Three parts make an endpoint exactly when the id has the minted shape, the region is one
      label, the zone is at least two, and the hostname is a legal DNS name. */
  lemma ValidIff(e: Endpoint)
    ensures Valid(e) <==>
            (IDShape(e.id) && '.' !in e.region && |Split(e.zone, '.')| >= 2 && LegalName(Host(e)))
  {
    hide Split;
    hide IDShape;
    hide LegalLabel;
    if IDShape(e.id) && '.' !in e.region && |Split(e.zone, '.')| >= 2 {
      ShapeHasNoDot(e.id);
      HostLabels(e);
      PartsFit(e.zone, '.');
      EmptyIsIllegal();
      var (labels, zone) := (Split(Host(e), '.'), Split(e.zone, '.'));
      assert labels[0] == e.id && labels[1] == e.region && labels[2..] == zone;
      assert forall i :: 2 <= i < |labels| ==> labels[i] == zone[i - 2];
      assert AllLegal(labels) <==> LegalLabel(e.id) && LegalLabel(e.region) && AllLegal(zone) by {
        assert forall i :: 0 <= i < |zone| ==> zone[i] == labels[i + 2];
      }
    }
  }

  /** A naming context is accepted exactly when some endpoint in it could be valid: the region is one legal
      label, the zone two or more within 253 octets. Missing texts are told apart from bad ones, the zone
      first. */
  lemma NamingAcceptedIff(n: Naming)
    ensures NamingProblem(n).None? <==>
            && '.' !in n.region && LegalLabel(n.region)
            && |Split(n.zone, '.')| >= 2 && LegalName(n.zone)
    ensures NamingProblem(n) == Some(ZoneRequired) <==> Blank(n.zone)
    ensures NamingProblem(n) == Some(RegionRequired) <==> !Blank(n.zone) && Blank(n.region)
    ensures NamingProblem(n) == Some(ZoneInvalid) <==>
            !Blank(n.zone) && !Blank(n.region) && !(|Split(n.zone, '.')| >= 2 && LegalName(n.zone))
  {
    hide Split;
    if Blank(n.region) && n.region != "" {
      assert !LabelChar(n.region[0]);
    }
    if Blank(n.zone) {
      BlankZone(n.zone);
    }
  }

  lemma BlankZone(zone: string)
    requires Blank(zone)
    ensures !AllLegal(Split(zone, '.'))
  {
    JoinSplit(zone, '.');
  }

  /** Valid endpoints live in accepted contexts. */
  lemma ValidInContext(e: Endpoint)
    requires Valid(e)
    ensures NamingProblem(Naming(e.zone, e.region)).None?
  {
    hide Split;
    NamingAcceptedIff(Naming(e.zone, e.region));
  }

  /** Each refusal of three parts, in the order they are looked at: the id, the region, the zone, the whole. */
  lemma EndpointRefusalsExact(id: string, region: string, zone: string)
    ensures var out := NewEndpoint(id, region, zone);
            var idOk := IDShape(id) && LegalLabel(id);
            var regionOk := '.' !in region && LegalLabel(region);
            var zoneOk := |Split(zone, '.')| >= 2 && LegalName(zone);
            && (out == Err(IDInvalid) <==> !idOk)
            && (out == Err(RegionRequired) <==> idOk && region == "")
            && (out == Err(RegionInvalid) <==> idOk && region != "" && !regionOk)
            && (out == Err(ZoneRequired) <==> idOk && regionOk && zone == "")
            && (out == Err(ZoneInvalid) <==> idOk && regionOk && zone != "" && !zoneOk)
            && (out == Err(HostTooLong) <==> idOk && regionOk && zoneOk && |id| + |region| + |zone| + 2 > 253)
            && (out.Ok? <==> idOk && regionOk && zoneOk && |id| + |region| + |zone| + 2 <= 253)
            && (out.Ok? ==> out == Ok(Endpoint(id, region, zone)))
  {
    hide Split;
    hide IDShape;
    EmptyIsIllegal();
    PartsFit(zone, '.');
  }

  /** The minted shape: two lowercase words and four digits. */
  lemma IDShapeIff(id: string)
    ensures IDShape(id) <==>
            exists a, n, d :: id == a + "-" + n + "-" + d && Lowercase(a) && Lowercase(n)
                              && |d| == 4 && forall i :: 0 <= i < 4 ==> '0' <= d[i] <= '9'
  {
    hide Split;
    if IDShape(id) {
      var parts := Split(id, '-');
      JoinSplit(id, '-');
      assert parts[1..][1..] == [parts[2]];
      assert Join(parts[1..], '-') == parts[1] + ['-'] + parts[2];
      assert id == parts[0] + "-" + parts[1] + "-" + parts[2];
      assert Lowercase(parts[0]) && Lowercase(parts[1]);
    }
    forall a, n, d | id == a + "-" + n + "-" + d && Lowercase(a) && Lowercase(n) && |d| == 4 && (forall i :: 0 <= i < 4 ==> '0' <= d[i] <= '9')
      ensures IDShape(id)
    {
      assert id == a + ['-'] + (n + ['-'] + d);
      SplitAtSeparator(a, '-', n + ['-'] + d);
      SplitAtSeparator(n, '-', d);
      SplitWord(d, '-');
    }
  }

  ghost predicate Lowercase(w: string) { w != "" && forall i :: 0 <= i < |w| ==> 'a' <= w[i] <= 'z' }

  lemma EmptyIsIllegal()
    ensures !LegalLabel("")
  {}
}
