/** The microVM addressing plane: how (host ordinal, local slot) becomes a net index,
    a /30 address pair inside 10.201.0.0/16, a TAP name and a uid
    (internal/domain/fleet_net_lease.go, internal/domain/fleet_network.go). */
module NetPlane {
  import opened Text

  const NET_SLOT_STRIDE := 1024
  const NET_MAX_SLOT := NET_SLOT_STRIDE - 1
  const NET_MAX_ORDINAL := 15
  const NET_MAX_INDEX := (NET_MAX_ORDINAL + 1) * NET_SLOT_STRIDE - 1
  const NET_INDEX_IP_STRIDE := 4
  const NET_SUBNET_OCTET1 := 10
  const NET_SUBNET_OCTET2 := 201

  // ---------------------------------------------------------------- addresses

  /** One dotted-quad field as netip.ParseAddr reads it: decimal, at most 255 and
      with no leading zero. */
  function Octet(field: string): Option<nat> {
    if field == "" || !AllDigits(field) || (|field| > 1 && field[0] == '0') || DecVal(field) > 255
    then None
    else Some(DecVal(field))
  }

  /** netip.ParseAddr restricted to the addresses for which Is4 answers true. */
  function ParseIPv4(s: string): (r: Option<seq<nat>>)
    ensures r.Some? ==> |r.value| == 4
  {
    var f := Split(s, '.');
    if |f| != 4 then None
    else
      var (a, b, c, d) := (Octet(f[0]), Octet(f[1]), Octet(f[2]), Octet(f[3]));
      if a.Some? && b.Some? && c.Some? && d.Some? then Some([a.value, b.value, c.value, d.value]) else None
  }

  function AddressValue(q: seq<nat>): nat
    requires |q| == 4
  {
    ((q[0] * 256 + q[1]) * 256 + q[2]) * 256 + q[3]
  }

  const SUBNET_BASE: nat := AddressValue([NET_SUBNET_OCTET1, NET_SUBNET_OCTET2, 0, 0])

  /** InFleetSubnet: a bare IPv4 address inside 10.201.0.0/16. */
  predicate InFleetSubnet(ip: string) {
    var q := ParseIPv4(ip);
    q.Some? && q.value[0] == NET_SUBNET_OCTET1 && q.value[1] == NET_SUBNET_OCTET2
  }

  /** fmt's "%d.%d.%d.%d". */
  function Quad(a: nat, b: nat, c: nat, d: nat): string {
    Join([Dec(a), Dec(b), Dec(c), Dec(d)], '.')
  }

  lemma OctetOfPrinted(n: nat)
    requires n < 256
    ensures Octet(Dec(n)) == Some(n)
  {
    DecRoundTrip(n);
  }

  /** A printed quad of octets parses back to exactly those octets. */
  lemma ParseQuad(a: nat, b: nat, c: nat, d: nat)
    requires a < 256 && b < 256 && c < 256 && d < 256
    ensures ParseIPv4(Quad(a, b, c, d)) == Some([a, b, c, d])
  {
    hide Octet;
    hide Join;
    hide Split;
    OctetOfPrinted(a);
    OctetOfPrinted(b);
    OctetOfPrinted(c);
    OctetOfPrinted(d);
    SplitJoin([Dec(a), Dec(b), Dec(c), Dec(d)], '.');
  }

  lemma {:induction false} CanonicalNumeral(s: string)
    requires s != "" && AllDigits(s) && (|s| > 1 ==> s[0] != '0')
    ensures Dec(DecVal(s)) == s
  {
    if |s| == 1 {
      assert s[..0] == "";
      assert s == [DigitChar(DecVal(s))];
    } else {
      var front := s[..|s| - 1];
      CanonicalNumeral(front);
      assert DecVal(front) != 0;
      assert DecVal(s) / 10 == DecVal(front);
      assert s == front + [s[|s| - 1]];
    }
  }

  /** Every accepted address has exactly one spelling, so comparing address strings is
      comparing addresses. */
  lemma ParsedAddressIsCanonical(s: string)
    requires ParseIPv4(s).Some?
    ensures var q := ParseIPv4(s).value;
            s == Quad(q[0], q[1], q[2], q[3]) && forall i :: 0 <= i < 4 ==> q[i] < 256
  {
    hide Split;
    hide Join;
    hide Dec;
    hide DecVal;
    var f := Split(s, '.');
    JoinSplit(s, '.');
    CanonicalNumeral(f[0]);
    CanonicalNumeral(f[1]);
    CanonicalNumeral(f[2]);
    CanonicalNumeral(f[3]);
    var q := ParseIPv4(s).value;
    assert f == [f[0], f[1], f[2], f[3]];
  }

  /** An address of 10.201.0.0/16, in its one spelling. */
  ghost predicate FleetAddress(ip: string) {
    exists c: nat, d: nat :: c < 256 && d < 256 && ip == Quad(10, 201, c, d)
  }

  /** The subnet test accepts exactly the 65536 printed addresses 10.201.0.0 to 10.201.255.255: no other
      address, no other spelling, nothing that is not an address. */
  lemma InFleetSubnetIff(ip: string)
    ensures InFleetSubnet(ip) <==> exists c: nat, d: nat :: c < 256 && d < 256 && ip == Quad(10, 201, c, d)
  {
    hide Quad;
    hide ParseIPv4;
    if InFleetSubnet(ip) {
      ParsedAddressIsCanonical(ip);
      var q := ParseIPv4(ip).value;
      assert ip == Quad(10, 201, q[2], q[3]);
    }
    forall c: nat, d: nat | c < 256 && d < 256 && ip == Quad(10, 201, c, d) ensures InFleetSubnet(ip) {
      ParseQuad(10, 201, c, d);
    }
  }

  // ---------------------------------------------------------------- derivation

  datatype Coordinates = Coordinates(
    hostOrdinal: int,
    localSlot: int,
    netIndex: int,
    hostIP: string,
    guestIP: string,
    tapName: string,
    vmUid: int)

  datatype OutOfRange = OrdinalOutOfRange | SlotOutOfRange | UidBaseNotPositive | IndexOutOfRange | OutsideSubnet

  /** DeriveNetLease: every bound is a refusal, and both addresses are re-checked against
      the fleet subnet before they are handed out. */
  function Derive(hostOrdinal: int, localSlot: int, uidBase: int): Result<Coordinates, OutOfRange> {
    if hostOrdinal < 0 || hostOrdinal > NET_MAX_ORDINAL then Err(OrdinalOutOfRange)
    else if localSlot < 1 || localSlot > NET_MAX_SLOT then Err(SlotOutOfRange)
    else if uidBase <= 0 then Err(UidBaseNotPositive)
    else
      var netIndex := hostOrdinal * NET_SLOT_STRIDE + localSlot;
      if netIndex < 1 || netIndex > NET_MAX_INDEX then Err(IndexOutOfRange)
      else
        var base := netIndex * NET_INDEX_IP_STRIDE;
        var o3 := base / 256;
        var o4 := base % 256;
        var c := Coordinates(
          hostOrdinal, localSlot, netIndex,
          Quad(NET_SUBNET_OCTET1, NET_SUBNET_OCTET2, o3, o4 + 1),
          Quad(NET_SUBNET_OCTET1, NET_SUBNET_OCTET2, o3, o4 + 2),
          "img" + Dec(localSlot),
          uidBase + localSlot);
        if !InFleetSubnet(c.hostIP) || !InFleetSubnet(c.guestIP) then Err(OutsideSubnet) else Ok(c)
  }

  predicate InPlane(hostOrdinal: int, localSlot: int, uidBase: int) {
    0 <= hostOrdinal <= NET_MAX_ORDINAL && 1 <= localSlot <= NET_MAX_SLOT && uidBase > 0
  }

  /** The /30 a net index names, as a set of address values. */
  ghost predicate InSlash30(netIndex: int, address: int) {
    SUBNET_BASE + netIndex * 4 <= address < SUBNET_BASE + netIndex * 4 + 4
  }

  ghost predicate Denotes(ip: string, address: int) {
    var q := ParseIPv4(ip);
    q.Some? && AddressValue(q.value) == address
  }

  lemma QuadInSubnet(c: nat, d: nat)
    requires c < 256 && d < 256
    ensures InFleetSubnet(Quad(10, 201, c, d)) && Denotes(Quad(10, 201, c, d), SUBNET_BASE + c * 256 + d)
  {
    ParseQuad(10, 201, c, d);
  }

  /** Adding the host part never carries out of the last octet. */
  lemma NoCarry(o: int, s: int)
    requires 0 <= o <= NET_MAX_ORDINAL && 1 <= s <= NET_MAX_SLOT
    ensures var base := (o * NET_SLOT_STRIDE + s) * NET_INDEX_IP_STRIDE;
            4 <= base <= 65532 && base / 256 < 256 && base % 256 + 2 < 256 && base / 256 * 256 + base % 256 == base
  {
    var base := (o * NET_SLOT_STRIDE + s) * NET_INDEX_IP_STRIDE;
    assert base % 256 % 4 == 0;
  }

  /** The derivation succeeds on exactly the plane's own coordinates, no octet carries and
      the closing subnet assertion never fires. */
  lemma DeriveExact(o: int, s: int, b: int)
    ensures Derive(o, s, b).Ok? <==> InPlane(o, s, b)
    ensures InPlane(o, s, b) <==> 0 <= o < 16 && 1 <= s < 1024 && b > 0
    ensures Derive(o, s, b) == Err(OrdinalOutOfRange) <==> !(0 <= o < 16)
    ensures Derive(o, s, b) == Err(SlotOutOfRange) <==> 0 <= o < 16 && !(1 <= s < 1024)
    ensures Derive(o, s, b) != Err(OutsideSubnet) && Derive(o, s, b) != Err(IndexOutOfRange)
    ensures InPlane(o, s, b) ==>
              var c := Derive(o, s, b).value;
              && c.hostOrdinal == o && c.localSlot == s && c.vmUid == b + s
              && c.tapName == "img" + Dec(s)
              && (var base := c.netIndex * 4;
                  && c.hostIP == Quad(10, 201, base / 256, base % 256 + 1)
                  && c.guestIP == Quad(10, 201, base / 256, base % 256 + 2))
              && c.netIndex == o * 1024 + s && 1 <= c.netIndex < 16384
              && Denotes(c.hostIP, SUBNET_BASE + 4 * c.netIndex + 1)
              && Denotes(c.guestIP, SUBNET_BASE + 4 * c.netIndex + 2)
              && InFleetSubnet(c.hostIP) && InFleetSubnet(c.guestIP)
              && InSlash30(c.netIndex, SUBNET_BASE + 4 * c.netIndex + 1)
  {
    hide InFleetSubnet;
    hide Denotes;
    hide Quad;
    if InPlane(o, s, b) {
      NoCarry(o, s);
      var base := (o * NET_SLOT_STRIDE + s) * NET_INDEX_IP_STRIDE;
      QuadInSubnet(base / 256, base % 256 + 1);
      QuadInSubnet(base / 256, base % 256 + 2);
    }
  }

  lemma DenotesOneAddress(ip: string, x: int, ip': string, y: int)
    requires Denotes(ip, x) && Denotes(ip', y) && x != y
    ensures ip != ip'
  {}

  /** Distinct (ordinal, slot) pairs never share an address: their /30s are disjoint, and
      their host and guest addresses are four different strings. */
  lemma DeriveInjective(o1: int, s1: int, b1: int, o2: int, s2: int, b2: int)
    requires InPlane(o1, s1, b1) && InPlane(o2, s2, b2)
    requires (o1, s1) != (o2, s2)
    ensures Derive(o1, s1, b1).Ok? && Derive(o2, s2, b2).Ok?
    ensures var c1, c2 := Derive(o1, s1, b1).value, Derive(o2, s2, b2).value;
            && c1.netIndex != c2.netIndex
            && c1.guestIP != c2.guestIP && c1.hostIP != c2.hostIP
            && c1.guestIP != c2.hostIP && c1.hostIP != c2.guestIP
            && forall a: int :: !(InSlash30(c1.netIndex, a) && InSlash30(c2.netIndex, a))
  {
    hide Derive;
    hide InFleetSubnet;
    hide Denotes;
    hide Quad;
    DeriveExact(o1, s1, b1);
    DeriveExact(o2, s2, b2);
    var c1, c2 := Derive(o1, s1, b1).value, Derive(o2, s2, b2).value;
    var (h1, h2) := (SUBNET_BASE + 4 * c1.netIndex + 1, SUBNET_BASE + 4 * c2.netIndex + 1);
    assert c1.netIndex != c2.netIndex;
    DenotesOneAddress(c1.guestIP, h1 + 1, c2.guestIP, h2 + 1);
    DenotesOneAddress(c1.hostIP, h1, c2.hostIP, h2);
    DenotesOneAddress(c1.guestIP, h1 + 1, c2.hostIP, h2);
    DenotesOneAddress(c1.hostIP, h1, c2.guestIP, h2 + 1);
  }

  /** verifyLease's test: the recorded coordinates are the ones their own ordinal and slot
      derive under the configured uid base. */
  predicate SelfConsistent(c: Coordinates, uidBase: int) {
    Derive(c.hostOrdinal, c.localSlot, uidBase) == Ok(c)
  }

  /** MatchesAddresses, the adoption test. */
  predicate MatchesAddresses(c: Coordinates, guestIP: string, tapName: string) {
    c.guestIP == guestIP && c.tapName == tapName
  }

  /** A self-consistent lease is determined by its guest address alone, up to the uid base. */
  lemma GuestAddressDetermines(c1: Coordinates, b1: int, c2: Coordinates, b2: int)
    requires SelfConsistent(c1, b1) && SelfConsistent(c2, b2)
    requires c1.guestIP == c2.guestIP
    ensures c1.hostOrdinal == c2.hostOrdinal && c1.localSlot == c2.localSlot
    ensures c1.netIndex == c2.netIndex && c1.hostIP == c2.hostIP && c1.tapName == c2.tapName
    ensures c1.vmUid - b1 == c2.vmUid - b2
  {
    hide Derive;
    hide InFleetSubnet;
    hide ParseIPv4;
    hide Quad;
    DeriveExact(c1.hostOrdinal, c1.localSlot, b1);
    DeriveExact(c2.hostOrdinal, c2.localSlot, b2);
  }

  lemma SlotsSeparate(o1: int, s1: nat, o2: int, s2: nat)
    requires s1 < NET_SLOT_STRIDE && s2 < NET_SLOT_STRIDE && s1 != s2
    ensures "img" + Dec(s1) != "img" + Dec(s2)
    ensures o1 * NET_SLOT_STRIDE + s1 != o2 * NET_SLOT_STRIDE + s2
  {
    hide Dec;
    if "img" + Dec(s1) == "img" + Dec(s2) {
      assert ("img" + Dec(s1))[3..] == Dec(s1) && ("img" + Dec(s2))[3..] == Dec(s2);
      DecInjective(s1, s2);
    }
  }

  /** TAP names and uids separate the slots of one host. */
  lemma SlotNamesDistinct(c1: Coordinates, c2: Coordinates, b: int)
    requires SelfConsistent(c1, b) && SelfConsistent(c2, b)
    requires c1.localSlot != c2.localSlot
    ensures c1.tapName != c2.tapName && c1.vmUid != c2.vmUid && c1.netIndex != c2.netIndex
  {
    hide Derive;
    hide InFleetSubnet;
    hide ParseIPv4;
    hide Quad;
    DeriveExact(c1.hostOrdinal, c1.localSlot, b);
    DeriveExact(c2.hostOrdinal, c2.localSlot, b);
    SlotsSeparate(c1.hostOrdinal, c1.localSlot, c2.hostOrdinal, c2.localSlot);
  }
}
