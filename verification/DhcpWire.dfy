/** What goes over the wire, in numbers: the options of every message sent, and what the options of a reply mean. */
module DhcpWire {
  import opened ByteStrings
  import opened DhcpOptions
  import opened DhcpAddress
  import opened DhcpClient
  import opened DhcpRuns

  // ---------------------------------------------------------------- messages

  /** A DISCOVER: message type 1, the client identifier, the parameters asked for, and the host name "TinyOS". */
  function Discover(mac: Bytes): seq<Option> {
    [Option(53, [1])] + [Option(61, [1] + mac)] + [Option(55, [1, 3, 6, 51])]
    + [Option(12, [0x54, 0x69, 0x6e, 0x79, 0x4f, 0x53])]
  }

  /** A REQUEST: message type 3, the client identifier, the address asked for, and the server if one is named. */
  function Request(mac: Bytes, ip: Bytes, server: Maybe): seq<Option> {
    [Option(53, [3])] + [Option(61, [1] + mac)] + [Option(50, ip)]
    + (if server.Ip? then [Option(54, server.ip)] else [])
    + [Option(55, [1, 3, 6, 51])] + [Option(12, [0x54, 0x69, 0x6e, 0x79, 0x4f, 0x53])]
  }

  lemma MessageDecodes(mac: Bytes, msgType: bv8, requested: Maybe, server: Maybe)
    requires |mac| == 6 && Address(requested) && Address(server)
    ensures Decode(Message(mac, msgType, requested, server)) == Stream(Carried(msgType, mac, requested, server), false)
  {
    hide Encode, Carried, Decode;
    var options := Carried(msgType, mac, requested, server);
    AllSendable(msgType, mac, requested, server);
    JustEnd();
    RoundTrip(options, [], [END]);
    assert options + [] == options;
  }

  lemma DiscoverReads(mac: Bytes)
    requires |mac| == 6
    ensures Decode(Message(mac, DISCOVER, Null, Null)) == Stream(Discover(mac), false)
  {
    hide Message, Decode;
    MessageDecodes(mac, DISCOVER, Null, Null);
    assert Carried(DISCOVER, mac, Null, Null) == Discover(mac);
  }

  lemma RequestReads(mac: Bytes, ip: Bytes, server: Maybe)
    requires |mac| == 6 && IsIp(ip) && Address(server)
    ensures Decode(Message(mac, REQUEST, Ip(ip), server)) == Stream(Request(mac, ip, server), false)
  {
    hide Message, Decode;
    MessageDecodes(mac, REQUEST, Ip(ip), server);
    assert Carried(REQUEST, mac, Ip(ip), server) == Request(mac, ip, server);
  }

  /** The messages among some effects, decoded. */
  function Heard(effects: seq<Effect>): seq<Stream> {
    if effects == [] then []
    else if effects[0].Sent? then [Decode(effects[0].options)] + Heard(effects[1..])
    else Heard(effects[1..])
  }

  lemma HeardOne(m: Bytes)
    ensures Heard([Sent(m)]) == [Decode(m)]
  {
    hide Decode;
    assert [Sent(m)][1..] == [];
  }

  lemma HeardNone(a: Effect, more: seq<Effect>)
    requires !a.Sent? && (more == [] || (|more| == 1 && !more[0].Sent?))
    ensures Heard([a] + more) == []
  {
    assert ([a] + more)[1..] == more;
    if more != [] {
      assert more[1..] == [];
    }
  }

  /** A transaction number is the one drawn, and one if zero was drawn. */
  predicate Drawn(xid: nat, d: Env) {
    xid == if d.xid == 0 then 1 else d.xid
  }

  lemma OfferSends(c: Client, data: Bytes, d: Env)
    requires |d.mac| == 6 && |data| >= HEADER
    ensures Heard(Offered(c, data, d).effects)
         == [Stream(Request(d.mac, data[16..20], Ip(Fields(data).serverId)), false)]
  {
    hide Heard, Decode, Message, Fields, MaskOf, Request;
    RequestReads(d.mac, YourIp(data), Ip(Fields(data).serverId));
    HeardOne(Message(d.mac, REQUEST, Ip(YourIp(data)), Ip(Fields(data).serverId)));
  }

  lemma AckSends(c: Client, data: Bytes, d: Env)
    requires |data| >= HEADER
    ensures Heard(Acked(c, data, d).effects) == []
  {
    hide Heard, Fields, LeaseOf, RenewAfter;
    HeardNone(Applied(YourIp(data), c.offer.mask, c.offer.router),
              if c.offer.dns == ZERO_IP then [] else [DnsSet(c.offer.dns)]);
  }

  lemma NothingHeard()
    ensures Heard([]) == []
  {
  }

  /** A start or an honoured NAK sends a DISCOVER under a new number, an accepted OFFER a REQUEST for its address to
      its server under the old one, and no other frame sends anything. */
  lemma SentOnFrame(c: Client, e: Event)
    requires |e.d.mac| == 6 && !e.Tick?
    ensures var after := Step(c, e);
            if e.Start? || TakesNak(c, e.data) then
              Heard(after.effects) == [Stream(Discover(e.d.mac), false)] && Drawn(after.client.xid, e.d)
            else
              && after.client.xid == c.xid
              && Heard(after.effects) ==
                 if TakesOffer(c, e.data)
                 then [Stream(Request(e.d.mac, e.data[16..20], Ip(Fields(e.data).serverId)), false)] else []
  {
    hide Heard, Decode, Message, Usable, OfferIn, LeaseOf, RenewAfter, Discover, Request, Offered, Acked;
    if e.Start? || TakesNak(c, e.data) {
      hide Fields;
      DiscoverReads(e.d.mac);
      HeardOne(Message(e.d.mac, DISCOVER, Null, Null));
    } else if TakesOffer(c, e.data) {
      OfferSends(c, e.data, e.d);
      OfferKeepsXid(c, e.data, e.d);
    } else if TakesAck(c, e.data) {
      AckSends(c, e.data, e.d);
      AckKeepsXid(c, e.data, e.d);
    } else {
      NothingHeard();
    }
  }

  lemma OfferKeepsXid(c: Client, data: Bytes, d: Env)
    requires |data| >= HEADER
    ensures Offered(c, data, d).client.xid == c.xid
  {
  }

  lemma AckKeepsXid(c: Client, data: Bytes, d: Env)
    requires |data| >= HEADER
    ensures Acked(c, data, d).client.xid == c.xid
  {
  }

  /** A tick that moves on sends one message under a new number: at T1 a REQUEST for the own address to the server of
      the lease, at T2 one that names no server, at the end a DISCOVER. A tick that does not sends nothing. */
  lemma SentOnTick(c: Client, d: Env)
    requires |d.mac| == 6 && OfferShape(c.offer)
    ensures var after := Ticked(c, d);
            if after.client.state == c.state then after == Outcome(c, []) && Heard(after.effects) == []
            else
              && Drawn(after.client.xid, d) && c.configured && |Heard(after.effects)| == 1
              && !Heard(after.effects)[0].malformed
              && match c.state
                 case Bound =>
                   && after.client.state.Renewing?
                   && Heard(after.effects)[0].options == Request(d.mac, c.offer.ip, Ip(c.offer.server))
                 case Renewing =>
                   && after.client.state.Rebinding?
                   && Heard(after.effects)[0].options == Request(d.mac, c.offer.ip, Null)
                 case _ =>
                   && c.state.Rebinding? && after.client.state.Selecting?
                   && Heard(after.effects)[0].options == Discover(d.mac)
  {
    hide Heard, Decode, Message, RebindAt, ExpiresAt, Discover, Request;
    NothingHeard();
    DiscoverReads(d.mac);
    HeardOne(Message(d.mac, DISCOVER, Null, Null));
    RequestReads(d.mac, c.offer.ip, Ip(c.offer.server));
    HeardOne(Message(d.mac, REQUEST, Ip(c.offer.ip), Ip(c.offer.server)));
    RequestReads(d.mac, c.offer.ip, Null);
    HeardOne(Message(d.mac, REQUEST, Ip(c.offer.ip), Null));
  }

  // ---------------------------------------------------------------- what a reply says

  /** The options of a reply by their numbers: 53 message type, 54 server, 1 mask, 3 routers, 6 name servers, 51 lease;
      of several routers or name servers the first counts. */
  lemma ReplyOptions(t: bv8, server: Bytes, mask: Bytes, router: Bytes, routers: Bytes, dns: Bytes, more: Bytes,
      lease: Bytes)
    requires IsIp(server) && IsIp(mask) && IsIp(router) && IsIp(dns) && |lease| == 4
    ensures Read([Option(53, [t])] + [Option(54, server)] + [Option(1, mask)] + [Option(3, router + routers)]
                 + [Option(6, dns + more)] + [Option(51, lease)])
         == Options(t, server, mask, true, router, dns, Value(lease))
  {
    hide Read, Value;
    ReadNothing();
    var a := [Option(53, [t])];
    var b := a + [Option(54, server)];
    var c := b + [Option(1, mask)];
    var d := c + [Option(3, router + routers)];
    var e := d + [Option(6, dns + more)];
    assert a == [] + a;
    ReadStep([], Option(53, [t]));
    ReadStep(a, Option(54, server));
    ReadStep(b, Option(1, mask));
    ReadStep(c, Option(3, router + routers));
    ReadStep(d, Option(6, dns + more));
    ReadStep(e, Option(51, lease));
    assert (router + routers)[..4] == router && (dns + more)[..4] == dns;
  }

  // ---------------------------------------------------------------- which frames act

  /** Of four bytes, exactly 63 82 53 63 make the cookie (RFC 2131 section 3). */
  lemma CookieBytes(b: Bytes)
    requires |b| == 4
    ensures Value(b) == COOKIE <==> b == [0x63, 0x82, 0x53, 0x63]
  {
    var cookie: Bytes := [0x63, 0x82, 0x53, 0x63];
    ValueOfNothing();
    FourBytesOn([], cookie);
    assert [] + cookie == cookie;
    assert Value(cookie) == COOKIE by { hide Value; }
    hide Value;
    BigEndianOfValue(b);
    BigEndianOfValue(cookie);
  }

  /** A BOOTREPLY with the transaction number at byte 4 and the cookie at byte 236. */
  predicate ReplyTo(xid: nat, data: Bytes) {
    |data| >= 240 && data[0] == 2 && Value(data[4..8]) == xid && data[236..240] == [0x63, 0x82, 0x53, 0x63]
  }

  lemma ReplyIff(xid: nat, data: Bytes)
    ensures ForUs(xid, data) <==> ReplyTo(xid, data)
  {
    hide Value;
    if |data| >= 240 {
      CookieBytes(data[236..240]);
    }
  }

  /** A reply of type t from this server. */
  predicate From(c: Client, data: Bytes, t: bv8, server: Bytes) {
    ReplyTo(c.xid, data) && Fields(data).msgType == t && Fields(data).serverId == server
  }

  /** Over every run, which frames are taken: an OFFER (2) exactly when the client is selecting and it is usable; an ACK
      (5) exactly with a request outstanding, from the server of the latest accepted OFFER and for its address; a NAK
      (6) exactly with a request outstanding and from that server. No other frame changes the record. */
  lemma FrameTaken(events: seq<Event>, k: nat)
    requires TypedEvents(events) && k < |events| && events[k].Frame?
    ensures var c, data, latest := StateAt(events, k), events[k].data, LatestOffer(events, k);
            && (Accepts(events, k) <==>
                  c.state.Selecting? && ReplyTo(c.xid, data) && Fields(data).msgType == 2 && Usable(OfferIn(data)))
            && (AckAt(events, k) <==>
                  Outstanding(c.state) && latest.Some? && From(c, data, 5, latest.offer.server)
                  && data[16..20] == latest.offer.ip)
            && (TakesNak(c, data) <==> Outstanding(c.state) && latest.Some? && From(c, data, 6, latest.offer.server))
            && (!Accepts(events, k) && !AckAt(events, k) && !TakesNak(c, data) ==> StateAt(events, k + 1) == c)
  {
    RunKeepsInv(events, k);
    var c, data := StateAt(events, k), events[k].data;
    ReplyIff(c.xid, data);
    if LatestOffer(events, k).Some? {
      ServerNamed(c.offer);
    }
    hide ForUs, ReplyTo, Fields, OfferIn, Usable, LatestOffer, Offered, Acked, LeaseOk;
    assert StateAt(events, k + 1) == Step(c, events[k]).client;
  }

  lemma ServerNamed(o: Offer)
    requires OfferShape(o) && Usable(o)
    ensures o.server != ZERO_IP
  {
    hide MaskTest, IsHost, SameNet, Word, IsSpecial;
  }
}
