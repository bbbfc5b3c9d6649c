/** Checks on addresses and masks: the code works byte by byte, the meaning is on 32-bit words. */
module DhcpAddress {
  import opened ByteStrings
  import opened DhcpOptions

  predicate IsIp(ip: Bytes) {
    |ip| == 4
  }

  /** The address as a 32-bit word, first byte on top. */
  function Word(ip: Bytes): bv32
    requires IsIp(ip)
  {
    Join(ip[0], ip[1], ip[2], ip[3])
  }

  // Named, so that proofs can treat them as unknown functions.
  function And(x: bv32, y: bv32): bv32 { x & y }
  function Not(x: bv32): bv32 { !x }
  function And8(x: bv8, y: bv8): bv8 { x & y }
  function Not8(x: bv8): bv8 { !x }

  // ---------------------------------------------------------------- masks

  /** n ones, then zeros. */
  function Prefix(n: nat): bv32
    requires n <= 32
  {
    if n == 0 then 0 else (Prefix(n - 1) >> 1) | 0x8000_0000
  }

  /** `dhcp_mask_is_valid` on the word. */
  predicate MaskTest(m: bv32) {
    var inv := !m;
    inv & (inv + 1) == 0 && m & 0xFF00_0000 == 0xFF00_0000 && m & 3 == 0
  }

  /** The prefix masks from /8 on, written out. */
  predicate Listed(m: bv32) {
    || m == 0xFF00_0000 || m == 0xFF80_0000 || m == 0xFFC0_0000 || m == 0xFFE0_0000 || m == 0xFFF0_0000
    || m == 0xFFF8_0000 || m == 0xFFFC_0000 || m == 0xFFFE_0000 || m == 0xFFFF_0000 || m == 0xFFFF_8000
    || m == 0xFFFF_C000 || m == 0xFFFF_E000 || m == 0xFFFF_F000 || m == 0xFFFF_F800 || m == 0xFFFF_FC00
    || m == 0xFFFF_FE00 || m == 0xFFFF_FF00 || m == 0xFFFF_FF80 || m == 0xFFFF_FFC0 || m == 0xFFFF_FFE0
    || m == 0xFFFF_FFF0 || m == 0xFFFF_FFF8 || m == 0xFFFF_FFFC
  }

  lemma TestLists(m: bv32)
    ensures MaskTest(m) <==> Listed(m)
  {
  }

  lemma LowPrefixes()
    ensures Prefix(8) == 0xFF00_0000 && Prefix(9) == 0xFF80_0000 && Prefix(10) == 0xFFC0_0000
    ensures Prefix(11) == 0xFFE0_0000
    ensures Prefix(12) == 0xFFF0_0000 && Prefix(13) == 0xFFF8_0000 && Prefix(14) == 0xFFFC_0000
    ensures Prefix(15) == 0xFFFE_0000
    ensures Prefix(16) == 0xFFFF_0000
  {
    assert Prefix(4) == 0xF000_0000;
    assert Prefix(8) == 0xFF00_0000;
    assert Prefix(12) == 0xFFF0_0000;
  }

  lemma HighPrefixes()
    ensures Prefix(17) == 0xFFFF_8000 && Prefix(18) == 0xFFFF_C000 && Prefix(19) == 0xFFFF_E000
    ensures Prefix(20) == 0xFFFF_F000
    ensures Prefix(21) == 0xFFFF_F800 && Prefix(22) == 0xFFFF_FC00 && Prefix(23) == 0xFFFF_FE00
    ensures Prefix(24) == 0xFFFF_FF00
    ensures Prefix(25) == 0xFFFF_FF80 && Prefix(26) == 0xFFFF_FFC0 && Prefix(27) == 0xFFFF_FFE0
    ensures Prefix(28) == 0xFFFF_FFF0
    ensures Prefix(29) == 0xFFFF_FFF8 && Prefix(30) == 0xFFFF_FFFC
  {
    LowPrefixes();
    assert Prefix(20) == 0xFFFF_F000;
    assert Prefix(24) == 0xFFFF_FF00;
    assert Prefix(28) == 0xFFFF_FFF0;
  }

  /** The mask test accepts exactly the contiguous prefixes /8 to /30. */
  lemma MaskIsPrefix(m: bv32)
    ensures MaskTest(m) <==> exists n :: 8 <= n <= 30 && m == Prefix(n)
  {
    TestLists(m);
    LowPrefixes();
    HighPrefixes();
    hide MaskTest, Prefix;
    if exists n :: 8 <= n <= 30 && m == Prefix(n) {
      var n :| 8 <= n <= 30 && m == Prefix(n);
      assert n in {8, 9, 10, 11, 12, 13, 14, 15, 16, 17, 18, 19, 20, 21, 22, 23, 24, 25, 26, 27, 28, 29, 30};
    }
  }

  // ---------------------------------------------------------------- host and subnet tests

  function HostPart(ip: bv32, mask: bv32): bv32 {
    And(ip, Not(mask))
  }

  /** Neither the network address nor the broadcast address of its subnet. */
  predicate IsHost(ip: bv32, mask: bv32) {
    HostPart(ip, mask) != 0 && HostPart(ip, mask) != Not(mask)
  }

  /** The network address, and the broadcast address that goes with it. */
  function Net(ip: bv32, mask: bv32): bv32 {
    And(ip, mask)
  }

  function Top(net: bv32, mask: bv32): bv32 {
    net | !mask
  }

  predicate Inside(x: bv32, low: bv32, high: bv32) {
    low < x < high
  }

  lemma AboveNet(ip: bv32, mask: bv32)
    requires HostPart(ip, mask) != 0
    ensures Net(ip, mask) < ip
  {
  }

  lemma AtNet(ip: bv32, mask: bv32)
    requires HostPart(ip, mask) == 0
    ensures !(Net(ip, mask) < ip)
  {
  }

  lemma SomeHostBitClear(ip: bv32, mask: bv32)
    requires HostPart(ip, mask) != Not(mask)
    ensures !ip & !mask != 0
  {
  }

  lemma BelowTop(ip: bv32, mask: bv32)
    requires !ip & !mask != 0
    ensures ip < ip | !mask
  {
  }

  lemma AtTop(ip: bv32, mask: bv32)
    requires HostPart(ip, mask) == Not(mask)
    ensures !(ip < Top(Net(ip, mask), mask))
  {
  }

  lemma FillUp(ip: bv32, mask: bv32)
    ensures ip | !mask == Top(Net(ip, mask), mask)
  {
  }

  /** A host address is strictly between the network address and the broadcast address. */
  lemma HostIsBetween(ip: bv32, mask: bv32)
    ensures IsHost(ip, mask) <==> Inside(ip, Net(ip, mask), Top(Net(ip, mask), mask))
  {
    hide HostPart, Net, Top, Not;
    if HostPart(ip, mask) == 0 {
      AtNet(ip, mask);
    } else {
      AboveNet(ip, mask);
      if HostPart(ip, mask) == Not(mask) {
        AtTop(ip, mask);
      } else {
        SomeHostBitClear(ip, mask);
        BelowTop(ip, mask);
        FillUp(ip, mask);
      }
    }
  }

  lemma JoinAnd(a: bv8, b: bv8, c: bv8, d: bv8, p: bv8, q: bv8, r: bv8, s: bv8)
    ensures And(Join(a, b, c, d), Join(p, q, r, s)) == Join(And8(a, p), And8(b, q), And8(c, r), And8(d, s))
  {
  }

  lemma JoinNot(p: bv8, q: bv8, r: bv8, s: bv8)
    ensures Not(Join(p, q, r, s)) == Join(Not8(p), Not8(q), Not8(r), Not8(s))
  {
    assert !Join(p, q, r, s) == Join(!p, !q, !r, !s) by {
      RawNot(p, q, r, s);
    }
    hide Join;
  }

  lemma RawNot(p: bv8, q: bv8, r: bv8, s: bv8)
    ensures !Join(p, q, r, s) == Join(!p, !q, !r, !s)
  {
  }

  lemma JoinZero()
    ensures Join(0, 0, 0, 0) == 0
  {
  }

  // ---------------------------------------------------------------- the code's tests

  predicate IsZero(ip: Bytes)
    requires IsIp(ip)
  {
    ip[0] == 0 && ip[1] == 0 && ip[2] == 0 && ip[3] == 0
  }

  lemma ZeroIsZero(ip: Bytes)
    requires IsIp(ip)
    ensures IsZero(ip) <==> ip == ZERO_IP
  {
  }

  /** Not anyone's unicast address: 0/8, loopback, and everything from 224/4 up. */
  predicate IsSpecial(ip: Bytes)
    requires IsIp(ip)
  {
    ip[0] == 0 || ip[0] == 127 || ip[0] >= 224
  }

  predicate ZeroBits(a: bv8, m: bv8) {
    And8(a, Not8(m)) == 0
  }

  predicate OneBits(a: bv8, m: bv8) {
    And8(a, Not8(m)) == Not8(m)
  }

  lemma HostJoin(ip: Bytes, mask: Bytes)
    requires IsIp(ip) && IsIp(mask)
    ensures HostPart(Word(ip), Word(mask)) == Join(And8(ip[0], Not8(mask[0])), And8(ip[1], Not8(mask[1])),
                                                   And8(ip[2], Not8(mask[2])), And8(ip[3], Not8(mask[3])))
  {
    hide Join, And, Not, And8, Not8;
    JoinNot(mask[0], mask[1], mask[2], mask[3]);
    JoinAnd(ip[0], ip[1], ip[2], ip[3], Not8(mask[0]), Not8(mask[1]), Not8(mask[2]), Not8(mask[3]));
  }

  lemma HostZero(ip: Bytes, mask: Bytes)
    requires IsIp(ip) && IsIp(mask)
    ensures HostPart(Word(ip), Word(mask)) == 0 <==> forall i :: 0 <= i < 4 ==> ZeroBits(ip[i], mask[i])
  {
    hide Join, And8, Not8, HostPart;
    HostJoin(ip, mask);
    JoinZero();
    JoinInjective(And8(ip[0], Not8(mask[0])), And8(ip[1], Not8(mask[1])),
                  And8(ip[2], Not8(mask[2])), And8(ip[3], Not8(mask[3])), 0, 0, 0, 0);
    var all := ZeroBits(ip[0], mask[0]) && ZeroBits(ip[1], mask[1]) && ZeroBits(ip[2], mask[2]) &&
        ZeroBits(ip[3], mask[3]);
    assert all <==> forall i :: 0 <= i < 4 ==> ZeroBits(ip[i], mask[i]);
  }

  lemma HostOnes(ip: Bytes, mask: Bytes)
    requires IsIp(ip) && IsIp(mask)
    ensures HostPart(Word(ip), Word(mask)) == Not(Word(mask)) <==> forall i :: 0 <= i < 4 ==> OneBits(ip[i], mask[i])
  {
    hide Join, And8, Not8, Not, HostPart;
    HostJoin(ip, mask);
    JoinNot(mask[0], mask[1], mask[2], mask[3]);
    JoinInjective(And8(ip[0], Not8(mask[0])), And8(ip[1], Not8(mask[1])),
                  And8(ip[2], Not8(mask[2])), And8(ip[3], Not8(mask[3])),
                  Not8(mask[0]), Not8(mask[1]), Not8(mask[2]), Not8(mask[3]));
    var all := OneBits(ip[0], mask[0]) && OneBits(ip[1], mask[1]) && OneBits(ip[2], mask[2]) && OneBits(ip[3], mask[3]);
    assert all <==> forall i :: 0 <= i < 4 ==> OneBits(ip[i], mask[i]);
  }

  /** `dhcp_ip_is_net_or_bcast`. */
  method IsNetOrBcast(ip: Bytes, mask: Bytes) returns (r: bool)
    requires IsIp(ip) && IsIp(mask)
    ensures r == !IsHost(Word(ip), Word(mask))
  {
    hide Word, HostPart, Not, ZeroBits, OneBits;
    var allZero, allOnes := true, true;
    for i := 0 to 4
      invariant allZero <==> forall j :: 0 <= j < i ==> ZeroBits(ip[j], mask[j])
      invariant allOnes <==> forall j :: 0 <= j < i ==> OneBits(ip[j], mask[j])
    {
      if !ZeroBits(ip[i], mask[i]) {
        allZero := false;
      }
      if !OneBits(ip[i], mask[i]) {
        allOnes := false;
      }
    }
    HostZero(ip, mask);
    HostOnes(ip, mask);
    r := allZero || allOnes;
  }

  predicate OneNet(a: bv8, b: bv8, m: bv8) {
    And8(a, m) == And8(b, m)
  }

  predicate SameNet(a: bv32, b: bv32, mask: bv32) {
    Net(a, mask) == Net(b, mask)
  }

  lemma NetBytes(a: Bytes, b: Bytes, mask: Bytes)
    requires IsIp(a) && IsIp(b) && IsIp(mask)
    ensures SameNet(Word(a), Word(b), Word(mask)) <==> forall i :: 0 <= i < 4 ==> OneNet(a[i], b[i], mask[i])
  {
    hide Join, And, And8;
    JoinAnd(a[0], a[1], a[2], a[3], mask[0], mask[1], mask[2], mask[3]);
    JoinAnd(b[0], b[1], b[2], b[3], mask[0], mask[1], mask[2], mask[3]);
    JoinInjective(And8(a[0], mask[0]), And8(a[1], mask[1]), And8(a[2], mask[2]), And8(a[3], mask[3]),
                  And8(b[0], mask[0]), And8(b[1], mask[1]), And8(b[2], mask[2]), And8(b[3], mask[3]));
    var all := OneNet(a[0], b[0], mask[0]) && OneNet(a[1], b[1], mask[1]) && OneNet(a[2], b[2], mask[2]) &&
        OneNet(a[3], b[3], mask[3]);
    assert all <==> forall i :: 0 <= i < 4 ==> OneNet(a[i], b[i], mask[i]);
  }

  /** `dhcp_same_subnet`. */
  method SameSubnet(a: Bytes, b: Bytes, mask: Bytes) returns (r: bool)
    requires IsIp(a) && IsIp(b) && IsIp(mask)
    ensures r == SameNet(Word(a), Word(b), Word(mask))
  {
    hide Word, OneNet, SameNet;
    NetBytes(a, b, mask);
    for i := 0 to 4
      invariant forall j :: 0 <= j < i ==> OneNet(a[j], b[j], mask[j])
    {
      if !OneNet(a[i], b[i], mask[i]) {
        return false;
      }
    }
    r := true;
  }

  // ---------------------------------------------------------------- offers

  datatype Offer = Offer(ip: Bytes, server: Bytes, mask: Bytes, router: Bytes, dns: Bytes)

  predicate OfferShape(o: Offer) {
    IsIp(o.ip) && IsIp(o.server) && IsIp(o.mask) && IsIp(o.router) && IsIp(o.dns)
  }

  /** A configuration that may be used. */
  predicate Usable(o: Offer)
    requires OfferShape(o)
  {
    && o.server != ZERO_IP && !IsSpecial(o.ip)
    && MaskTest(Word(o.mask)) && IsHost(Word(o.ip), Word(o.mask))
    && (o.router == ZERO_IP ||
        (SameNet(Word(o.router), Word(o.ip), Word(o.mask)) && o.router != o.ip && IsHost(Word(o.router), Word(o.mask))))
    && (o.dns == ZERO_IP || !IsSpecial(o.dns))
  }

  /** The mask of the address class. */
  function Classful(ip: Bytes): (mask: Bytes)
    requires IsIp(ip)
    ensures IsIp(mask)
  {
    [255, if ip[0] >= 128 then 255 else 0, if ip[0] >= 192 then 255 else 0, 0]
  }

  lemma ClassfulIsMask(ip: Bytes)
    requires IsIp(ip)
    ensures MaskTest(Word(Classful(ip)))
    ensures Word(Classful(ip)) == Prefix(if ip[0] >= 192 then 24 else if ip[0] >= 128 then 16 else 8)
  {
    LowPrefixes();
    HighPrefixes();
    hide Prefix;
    assert Join(255, 0, 0, 0) == 0xFF00_0000 && Join(255, 255, 0, 0) == 0xFFFF_0000 &&
        Join(255, 255, 255, 0) == 0xFFFF_FF00;
    assert ip[0] >= 192 ==> ip[0] >= 128;
  }

  /** The mask in force: the one of the option, or the default of the class. */
  function MaskOf(ip: Bytes, f: Options): Bytes
    requires IsIp(ip)
  {
    if f.maskPresent then f.mask else Classful(ip)
  }

  /** `dhcp_offer_is_valid`: accepts exactly the usable configurations and fills in the mask. */
  method OfferIsValid(ip: Bytes, f: Options) returns (ok: bool, mask: Bytes)
    requires IsIp(ip) && IsIp(f.serverId) && IsIp(f.mask) && IsIp(f.router) && IsIp(f.dns)
    ensures ok == Usable(Offer(ip, f.serverId, MaskOf(ip, f), f.router, f.dns))
    ensures ok ==> mask == MaskOf(ip, f)
  {
    hide Word, MaskTest, IsHost, SameNet, IsSpecial;
    mask := f.mask;
    ZeroIsZero(f.serverId);
    ZeroIsZero(f.router);
    ZeroIsZero(f.dns);
    if IsZero(f.serverId) {
      return false, mask;
    }
    if IsSpecial(ip) {
      return false, mask;
    }
    if !f.maskPresent {
      mask := Classful(ip);
      ClassfulIsMask(ip);
    } else if !MaskTest(Word(mask)) {
      return false, mask;
    }
    var edge := IsNetOrBcast(ip, mask);
    if edge {
      return false, mask;
    }
    if !IsZero(f.router) {
      var near := SameSubnet(f.router, ip, mask);
      edge := IsNetOrBcast(f.router, mask);
      if !near || f.router == ip || edge {
        return false, mask;
      }
    }
    if !IsZero(f.dns) && IsSpecial(f.dns) {
      return false, mask;
    }
    ok := true;
  }

  /** An address that can be one host's: from 1 to 223 without 127. */
  predicate Unicast(ip: Bytes)
    requires IsIp(ip)
  {
    1 <= ip[0] <= 126 || 128 <= ip[0] <= 223
  }

  lemma UnicastIff(ip: Bytes)
    requires IsIp(ip)
    ensures Unicast(ip) <==> !IsSpecial(ip)
  {
  }

  /** A gateway for the address: another host strictly inside the same subnet. */
  predicate Gateway(router: bv32, ip: bv32, mask: bv32) {
    var net := Net(ip, mask);
    Net(router, mask) == net && Inside(router, net, Top(net, mask)) && router != ip
  }

  lemma GatewayIff(o: Offer)
    requires OfferShape(o)
    ensures Gateway(Word(o.router), Word(o.ip), Word(o.mask)) <==>
      SameNet(Word(o.router), Word(o.ip), Word(o.mask)) && o.router != o.ip && IsHost(Word(o.router), Word(o.mask))
  {
    hide Word, IsHost, Inside, Net, Top;
    HostIsBetween(Word(o.router), Word(o.mask));
    WordInjective(o.router, o.ip);
  }

  /** Which offers are accepted: a server is named, the own address is unicast and strictly inside a subnet of 8 to
      30 leading ones, there is no gateway or a proper one, and no name server or a unicast one. */
  lemma UsableIff(o: Offer)
    requires OfferShape(o)
    ensures Usable(o) <==>
      && o.server != [0, 0, 0, 0] && Unicast(o.ip)
      && (exists n :: 8 <= n <= 30 && Word(o.mask) == Prefix(n))
      && (var net := Net(Word(o.ip), Word(o.mask)); Inside(Word(o.ip), net, Top(net, Word(o.mask))))
      && (o.router == [0, 0, 0, 0] || Gateway(Word(o.router), Word(o.ip), Word(o.mask)))
      && (o.dns == [0, 0, 0, 0] || Unicast(o.dns))
  {
    hide Word, MaskTest, IsHost, SameNet, Prefix, Inside, Net, Top, IsSpecial, Unicast, Gateway;
    UnicastIff(o.ip);
    UnicastIff(o.dns);
    MaskIsPrefix(Word(o.mask));
    HostIsBetween(Word(o.ip), Word(o.mask));
    GatewayIff(o);
  }

  /** The top byte of a valid mask is full, so a gateway is no more special than the address itself. */
  lemma GatewayNotSpecial(o: Offer)
    requires OfferShape(o) && Usable(o) && o.router != ZERO_IP
    ensures !IsSpecial(o.router)
  {
    NetBytes(o.router, o.ip, o.mask);
    assert OneNet(o.router[0], o.ip[0], o.mask[0]);
    TopByteFull(o.mask[0], o.mask[1], o.mask[2], o.mask[3]);
    hide Word, MaskTest, IsHost, SameNet;
    assert And8(o.router[0], 0xFF) == o.router[0] && And8(o.ip[0], 0xFF) == o.ip[0];
  }

  lemma TopByteFull(a: bv8, b: bv8, c: bv8, d: bv8)
    requires MaskTest(Join(a, b, c, d))
    ensures a == 0xFF
  {
    assert Join(a, b, c, d) & 0xFF00_0000 == 0xFF00_0000;
    TopByte(a, b, c, d);
  }

  lemma TopByte(a: bv8, b: bv8, c: bv8, d: bv8)
    requires Join(a, b, c, d) & 0xFF00_0000 == 0xFF00_0000
    ensures a == 0xFF
  {
  }

  lemma WordInjective(a: Bytes, b: Bytes)
    requires IsIp(a) && IsIp(b)
    ensures Word(a) == Word(b) ==> a == b
  {
    JoinInjective(a[0], a[1], a[2], a[3], b[0], b[1], b[2], b[3]);
    hide Join;
    if Word(a) == Word(b) {
      assert a == [a[0], a[1], a[2], a[3]] && b == [b[0], b[1], b[2], b[3]];
    }
  }
}
