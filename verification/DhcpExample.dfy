/**
 Runs that do happen: a server's replies, byte by byte, that bring a configuration into force, a restart after
 which it never expires, and a lease that is gone as soon as it began.
 */
module DhcpExample {
  import opened ByteStrings
  import opened DhcpOptions
  import opened DhcpAddress
  import opened DhcpClient
  import opened DhcpRuns

  // ---------------------------------------------------------------- replies

  /** A BOOTREPLY with this transaction number, address and options, and zeros elsewhere. */
  function Reply(xid: nat, ip: Bytes, options: seq<Option>): (data: Bytes)
    requires IsIp(ip)
    ensures |data| >= HEADER
  {
    [BOOT_REPLY] + Repeat(0, 3) + BigEndian(xid, 4) + Repeat(0, 8) + ip + Repeat(0, 216) + BigEndian(COOKIE, 4)
    + (Encode(options) + [END])
  }

  lemma ReplyParts(xid: nat, ip: Bytes, options: seq<Option>)
    requires IsIp(ip)
    ensures var data := Reply(xid, ip, options);
            && data[0] == BOOT_REPLY && data[4..8] == BigEndian(xid, 4) && data[16..20] == ip
            && data[236..240] == BigEndian(COOKIE, 4) && data[HEADER..] == Encode(options) + [END]
  {
    hide BigEndian, Encode;
    var data := Reply(xid, ip, options);
    var a := [BOOT_REPLY] + Repeat(0, 3);
    var b := a + BigEndian(xid, 4);
    var c := b + Repeat(0, 8);
    var d := c + ip;
    var e := d + Repeat(0, 216);
    var f := e + BigEndian(COOKIE, 4);
    assert |a| == 4 && |b| == 8 && |c| == 16 && |d| == 20 && |e| == 236 && |f| == 240;
    assert data == f + (Encode(options) + [END]);
    assert data[4..8] == b[4..8] && data[16..20] == d[16..20] && data[236..240] == f[236..240];
  }

  lemma NumberBack(x: nat)
    requires x < WORD
    ensures Value(BigEndian(x, 4)) == x
  {
    FourBytes();
    hide Value, BigEndian, Power256;
    ValueOfBigEndian(x, 4);
  }

  lemma FourBytes()
    ensures Power256(4) == WORD
  {
  }

  /** The client reads from a reply what was put into it. */
  lemma ReplyReads(xid: nat, ip: Bytes, options: seq<Option>)
    requires IsIp(ip) && xid < WORD && |Encode(options)| < MAX_ITERATIONS
    requires forall i :: 0 <= i < |options| ==> Sendable(options[i])
    ensures var data := Reply(xid, ip, options);
            ForUs(xid, data) && YourIp(data) == ip && Fields(data) == Read(options)
  {
    hide Reply, Encode, Read, Value, BigEndian, Decode, DecodeCapped;
    ReplyParts(xid, ip, options);
    NumberBack(xid);
    NumberBack(COOKIE);
    JustEnd();
    RoundTrip(options, [], [END]);
    CapNeverFires(Encode(options) + [END], MAX_ITERATIONS);
    assert options + [] == options;
  }

  // ---------------------------------------------------------------- a server

  const SERVER: Bytes := [10, 0, 0, 1]
  const HOST: Bytes := [10, 0, 0, 5]
  const MASK: Bytes := [255, 0, 0, 0]

  function Says(msgType: bv8): seq<Option> {
    [Option(MESSAGE_TYPE, [msgType])] + [Option(SERVER_ID, SERVER)]
  }

  lemma SaysReads(msgType: bv8)
    ensures Read(Says(msgType)) == Options(msgType, SERVER, ZERO_IP, false, ZERO_IP, ZERO_IP, 0)
    ensures |Encode(Says(msgType))| < MAX_ITERATIONS
    ensures forall i :: 0 <= i < |Says(msgType)| ==> Sendable(Says(msgType)[i])
  {
    var first := [Option(MESSAGE_TYPE, [msgType])];
    assert Encode(Says(msgType)) == Encode(first) + [SERVER_ID, Byte(4)] + SERVER by {
      assert Says(msgType)[..1] == first;
    }
    assert |Encode(first)| == 3 by {
      assert first[..0] == [];
    }
    hide Read, Encode;
    ReadNothing();
    assert first == [] + first;
    ReadStep([], first[0]);
    ReadStep(first, Option(SERVER_ID, SERVER));
  }

  const OFFERED := Offer(HOST, SERVER, MASK, ZERO_IP, ZERO_IP)

  lemma OfferedUsable()
    ensures OfferShape(OFFERED) && Usable(OFFERED) && Classful(HOST) == MASK
  {
    ClassfulIsMask(HOST);
    assert Classful(HOST) == MASK;
    HostWord();
    hide Word, MaskTest, IsHost, Prefix;
  }

  lemma HostWord()
    ensures IsHost(Word(HOST), Word(MASK))
  {
    assert Word(HOST) == 0x0A00_0005 && Word(MASK) == 0xFF00_0000;
  }

  lemma ServerReply(xid: nat, msgType: bv8)
    requires xid < WORD
    ensures var data := Reply(xid, HOST, Says(msgType));
            && ForUs(xid, data) && YourIp(data) == HOST && Fields(data).msgType == msgType
            && Fields(data).serverId == SERVER && OfferIn(data) == OFFERED
  {
    SaysReads(msgType);
    OfferedUsable();
    hide Reply, Read, ForUs, Fields, YourIp, Says, Encode, Classful;
    ReplyReads(xid, HOST, Says(msgType));
  }

  // ---------------------------------------------------------------- the runs

  /** Start, OFFER and ACK. */
  function Served(d: Env): (r: seq<Event>)
    ensures |r| == 3
  {
    var xid := FreshXid(d.xid);
    [Start(d), Frame(Reply(xid, HOST, Says(OFFER)), d), Frame(Reply(xid, HOST, Says(ACK)), d)]
  }

  lemma ServedTyped(d: Env)
    requires TypedEnv(d)
    ensures forall e :: e in Served(d) ==> TypedEnv(e.d)
  {
    hide Reply, Says;
  }

  function TickEvents(ds: seq<Env>): seq<Event> {
    seq(|ds|, i requires 0 <= i < |ds| => Tick(ds[i]))
  }

  lemma OfferTaken(c: Client, d: Env)
    requires c.state == Selecting && c.xid < WORD
    ensures var data := Reply(c.xid, HOST, Says(OFFER));
            && TakesOffer(c, data)
            && Handled(c, data, d).client == c.(offer := OFFERED, leaseTime := Fields(data).lease, state := Requesting)
  {
    hide Reply, Says, ForUs, Fields, YourIp, OfferIn, Usable, Message;
    ServerReply(c.xid, OFFER);
    OfferedUsable();
  }

  lemma AckTaken(c: Client, d: Env)
    requires c.state == Requesting && c.xid < WORD && c.offer == OFFERED
    ensures var data := Reply(c.xid, HOST, Says(ACK));
            var after := Handled(c, data, d);
            && TakesAck(c, data) && Applied(HOST, MASK, ZERO_IP) in after.effects
            && after.client.configured && after.client.state == Bound && after.client.leaseStart == d.now
  {
    hide Reply, Says, ForUs, Fields, YourIp, OfferIn, Usable, Message, LeaseOf, RenewAfter;
    ServerReply(c.xid, ACK);
  }

  lemma StateNext(events: seq<Event>, k: nat)
    requires k < |events|
    ensures StateAt(events, k + 1) == Step(StateAt(events, k), events[k]).client && StateAt(events, 0) == INITIAL
  {
    hide Step;
  }

  lemma FirstEvents(d: Env, events: seq<Event>)
    requires |events| >= 3 && events[..3] == Served(d)
    ensures var xid := FreshXid(d.xid);
            && events[0] == Start(d) && events[1] == Frame(Reply(xid, HOST, Says(OFFER)), d)
            && events[2] == Frame(Reply(xid, HOST, Says(ACK)), d)
  {
    hide Reply, Says;
    assert events[0] == events[..3][0] && events[1] == events[..3][1] && events[2] == events[..3][2];
  }

  lemma AfterOffer(d: Env, events: seq<Event>)
    requires TypedEnv(d) && |events| >= 3 && events[..3] == Served(d)
    ensures var c := StateAt(events, 2); c.state == Requesting && c.offer == OFFERED && c.xid == FreshXid(d.xid)
  {
    hide Reply, Says, Handled, TakesOffer, Message, StateAt, Served;
    FirstEvents(d, events);
    StateNext(events, 0);
    StateNext(events, 1);
    OfferTaken(StateAt(events, 1), d);
  }

  /** The configuration is applied by the third event. */
  lemma ConfigurationApplied(d: Env, events: seq<Event>)
    requires TypedEnv(d) && |events| >= 3 && events[..3] == Served(d)
    ensures Applied(HOST, MASK, ZERO_IP) in EffectsAt(events, 2)
    ensures var c := StateAt(events, 3); c.configured && c.state == Bound && c.leaseStart == d.now
  {
    hide Reply, Says, Handled, TakesAck, StateAt, Served;
    FirstEvents(d, events);
    AfterOffer(d, events);
    AckTaken(StateAt(events, 2), d);
    StateNext(events, 2);
  }

  /** Started once more after that, the client keeps the configuration through any number of ticks, whatever
      the clock says. */
  lemma NeverExpires(d: Env, ds: seq<Env>)
    requires TypedEnv(d)
    ensures var events := Served(d) + [Start(d)] + TickEvents(ds);
            StateAt(events, |events|).configured && Seeking(StateAt(events, |events|))
  {
    hide Served, StateAt;
    var events := Served(d) + [Start(d)] + TickEvents(ds);
    assert |events| == 4 + |ds| && events[..3] == Served(d) && events[3] == Start(d);
    ConfigurationApplied(d, events);
    forall i | 3 < i < |events| ensures !AckAt(events, i) {
      assert events[i] == TickEvents(ds)[i - 4];
    }
    OldConfigurationStays(events, 3, |events|);
  }

  lemma WrapsSoon(d: Env, events: seq<Event>)
    requires TypedEvents(events) && |events| >= 3 && events[..3] == Served(d) && TypedEnv(d) && d.now == WORD - 4
    ensures var c := StateAt(events, 3);
            Leased(c.state) && c.configured && WrapsWhole(c) && c.leaseStart == WORD - 4 && c.leaseTime >= MIN_LEASE
  {
    hide StateAt, OfferOk, LatestOffer, Served, RenewalOffset;
    ConfigurationApplied(d, events);
    RunKeepsInv(events, 3);
  }

  /** Acknowledged four ticks before the wrap of the clock, the configuration is gone after the next three. */
  lemma GoneInThreeTicks(d: Env, d1: Env, d2: Env, d3: Env)
    requires TypedEnv(d) && TypedEnv(d1) && TypedEnv(d2) && TypedEnv(d3)
    requires d.now == WORD - 4 && d1.now == WORD - 3 && d2.now == WORD - 2 && d3.now == WORD - 1
    ensures var events := Served(d) + [Tick(d1), Tick(d2), Tick(d3)];
            StateAt(events, 3).configured && StateAt(events, 3).leaseTime >= MIN_LEASE && !StateAt(events, 6).configured
  {
    var events := Served(d) + [Tick(d1), Tick(d2), Tick(d3)];
    ServedTyped(d);
    hide Served, StateAt, WrapsWhole, Ticked, TypedEnv;
    assert |events| == 6 && events[..3] == Served(d);
    assert events[3] == Tick(d1) && events[4] == Tick(d2) && events[5] == Tick(d3);
    WrapsSoon(d, events);
    WrapExpiresAtOnce(StateAt(events, 3), d1, d2, d3);
    StateNext(events, 3);
    StateNext(events, 4);
    StateNext(events, 5);
  }
}
