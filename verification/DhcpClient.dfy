/** The DHCP client (RFC 2131 section 4.4): its record, what starts, frames and ticks do to it, and the code. */
module DhcpClient {
  import opened ByteStrings
  import opened DhcpOptions
  import opened DhcpAddress

  const WORD: nat := 0x1_0000_0000
  const HEADER: nat := 240
  const BOOT_REPLY: bv8 := 2
  const COOKIE: nat := 0x6382_5363
  const MIN_LEASE: nat := 60
  const SHORT_LEASE: nat := 600
  const MAX_LEASE: nat := 30 * 86400

  datatype State = Init | Selecting | Requesting | Bound | Renewing | Rebinding

  datatype Client = Client(
    state: State, xid: nat, offer: Offer, leaseTime: nat, leaseStart: nat, renewalTime: nat, configured: bool)

  /** What a call does to the world: a network configuration, a DNS server, or the options of a message sent. */
  datatype Effect = Applied(ip: Bytes, mask: Bytes, router: Bytes) | DnsSet(ip: Bytes) | Sent(options: Bytes)

  datatype Outcome = Outcome(client: Client, effects: seq<Effect>)

  /** The random numbers and the clock that a call sees. */
  datatype Env = Env(xid: nat, jitter: nat, now: nat, mac: Bytes)

  predicate TypedEnv(d: Env) {
    d.xid < WORD && d.jitter < WORD && d.now < WORD && |d.mac| == 6
  }

  const NO_OFFER := Offer(ZERO_IP, ZERO_IP, ZERO_IP, ZERO_IP, ZERO_IP)
  const INITIAL := Client(Init, 0, NO_OFFER, 0, 0, 0, false)

  // ---------------------------------------------------------------- messages

  function Message(mac: Bytes, msgType: bv8, requested: Maybe, server: Maybe): Bytes {
    Encode(Carried(msgType, mac, requested, server)) + [END]
  }

  function FreshXid(xid: nat): nat {
    if xid == 0 then 1 else xid
  }

  /** A reply to the outstanding transaction. */
  predicate ForUs(xid: nat, data: Bytes) {
    |data| >= HEADER && data[0] == BOOT_REPLY && Value(data[4..8]) == xid && Value(data[236..240]) == COOKIE
  }

  function YourIp(data: Bytes): (ip: Bytes)
    requires |data| >= HEADER
    ensures IsIp(ip)
  {
    data[16..20]
  }

  function Fields(data: Bytes): (f: Options)
    requires |data| >= HEADER
    ensures IsIp(f.serverId) && IsIp(f.mask) && IsIp(f.router) && IsIp(f.dns)
  {
    Read(DecodeCapped(data[HEADER..], MAX_ITERATIONS).options)
  }

  /** The configuration that a frame offers. */
  function OfferIn(data: Bytes): (o: Offer)
    requires |data| >= HEADER
    ensures OfferShape(o)
  {
    var f := Fields(data);
    Offer(YourIp(data), f.serverId, MaskOf(YourIp(data), f), f.router, f.dns)
  }

  predicate Outstanding(s: State) {
    s.Requesting? || s.Renewing? || s.Rebinding?
  }

  /** An OFFER that is taken. */
  predicate TakesOffer(c: Client, data: Bytes) {
    ForUs(c.xid, data) && Fields(data).msgType == OFFER && c.state.Selecting? && Usable(OfferIn(data))
  }

  /** From the server whose OFFER was taken. */
  predicate FromServer(c: Client, data: Bytes) {
    ForUs(c.xid, data) && Outstanding(c.state) && Fields(data).serverId != ZERO_IP &&
        Fields(data).serverId == c.offer.server
  }

  predicate TakesAck(c: Client, data: Bytes) {
    FromServer(c, data) && Fields(data).msgType == ACK && YourIp(data) == c.offer.ip
  }

  predicate TakesNak(c: Client, data: Bytes) {
    FromServer(c, data) && Fields(data).msgType == NAK
  }

  // ---------------------------------------------------------------- leases

  function LeaseOf(stored: nat, acked: nat): nat {
    var l := if acked != 0 then acked else stored;
    var l := if l < MIN_LEASE then SHORT_LEASE else l;
    if l > MAX_LEASE then MAX_LEASE else l
  }

  /** The lease in ticks at 100 Hz, as a 32-bit product. */
  function Ticks(lease: nat): nat {
    lease * 100 % WORD
  }

  /** From the start of the lease to the jittered T1. */
  function RenewAfter(lease: nat, jitter: nat): nat {
    var base := Ticks(lease) / 2;
    var window := base / 10;
    if window == 0 then base else (base - window + jitter % (2 * window)) % WORD
  }

  lemma LeaseBounds(stored: nat, acked: nat)
    ensures MIN_LEASE <= LeaseOf(stored, acked) <= MAX_LEASE
  {
  }

  /** No product of a lease overflows 32 bits. */
  lemma NoOverflow(lease: nat)
    requires lease <= MAX_LEASE
    ensures Ticks(lease) == lease * 100 && Ticks(lease) * 7 % WORD == lease * 700
  {
  }

  /** T1 is within a tenth of half the lease. */
  lemma RenewBounds(lease: nat, jitter: nat)
    requires MIN_LEASE <= lease <= MAX_LEASE
    ensures 45 * lease <= RenewAfter(lease, jitter) < 55 * lease < WORD
    ensures RenewAfter(lease, jitter) == 45 * lease + jitter % (10 * lease)
  {
    NoOverflow(lease);
    hide Ticks;
    assert Ticks(lease) / 2 == 50 * lease && 50 * lease / 10 == 5 * lease;
    var r := jitter % (2 * (5 * lease));
    assert 0 <= r < 10 * lease;
    assert (45 * lease + r) % WORD == 45 * lease + r;
  }

  function RebindAt(c: Client): nat {
    (c.leaseStart + Ticks(c.leaseTime) * 7 % WORD / 8) % WORD
  }

  function ExpiresAt(c: Client): nat {
    (c.leaseStart + Ticks(c.leaseTime)) % WORD
  }

  // ---------------------------------------------------------------- steps

  function Started(c: Client, d: Env): Outcome {
    Outcome(c.(xid := FreshXid(d.xid), state := Selecting), [Sent(Message(d.mac, DISCOVER, Null, Null))])
  }

  function Offered(c: Client, data: Bytes, d: Env): Outcome
    requires |data| >= HEADER
  {
    var o := OfferIn(data);
    Outcome(c.(offer := o, leaseTime := Fields(data).lease, state := Requesting),
            [Sent(Message(d.mac, REQUEST, Ip(o.ip), Ip(o.server)))])
  }

  function Acked(c: Client, data: Bytes, d: Env): Outcome
    requires |data| >= HEADER
  {
    var lease := LeaseOf(c.leaseTime, Fields(data).lease);
    Outcome(c.(leaseTime := lease, state := Bound, configured := true, leaseStart := d.now,
               renewalTime := (d.now + RenewAfter(lease, d.jitter)) % WORD),
            [Applied(YourIp(data), c.offer.mask, c.offer.router)]
            + if c.offer.dns == ZERO_IP then [] else [DnsSet(c.offer.dns)])
  }

  /** `handle_dhcp`: only a taken OFFER, ACK or NAK does anything. */
  function Handled(c: Client, data: Bytes, d: Env): Outcome {
    if TakesOffer(c, data) then Offered(c, data, d)
    else if TakesAck(c, data) then Acked(c, data, d)
    else if TakesNak(c, data) then Started(c, d)
    else Outcome(c, [])
  }

  /** `dhcp_tick`. */
  function Ticked(c: Client, d: Env): Outcome {
    if !c.configured then Outcome(c, [])
    else if c.state.Bound? && d.now >= c.renewalTime then
      Outcome(c.(state := Renewing, xid := FreshXid(d.xid)),
              [Sent(Message(d.mac, REQUEST, Ip(c.offer.ip), Ip(c.offer.server)))])
    else if c.state.Renewing? && d.now >= RebindAt(c) then
      Outcome(c.(state := Rebinding, xid := FreshXid(d.xid)),
              [Sent(Message(d.mac, REQUEST, Ip(c.offer.ip), Null))])
    else if c.state.Rebinding? && d.now >= ExpiresAt(c) then
      Started(c.(configured := false), d)
    else Outcome(c, [])
  }

  // ---------------------------------------------------------------- the code

  /** The clamped lease and the jittered T1 of an acknowledgement. */
  method Schedule(stored: nat, acked: nat, jitter: nat) returns (lease: nat, t1: nat)
    ensures lease == LeaseOf(stored, acked) && t1 == RenewAfter(lease, jitter)
    ensures MIN_LEASE <= lease <= MAX_LEASE && 45 * lease <= t1 < 55 * lease
  {
    lease := stored;
    if acked != 0 {
      lease := acked;
    }
    if lease < MIN_LEASE {
      lease := SHORT_LEASE;
    }
    if lease > MAX_LEASE {
      lease := MAX_LEASE;
    }
    t1 := Jittered(lease, jitter);
    LeaseBounds(stored, acked);
    RenewBounds(lease, jitter);
  }

  /** T1 with its jitter, for any lease. */
  method Jittered(lease: nat, jitter: nat) returns (t1: nat)
    ensures t1 == RenewAfter(lease, jitter)
  {
    var leaseTicks: nat := lease * 100 % WORD;
    var t1Base: nat := leaseTicks / 2;
    var jitterWindow: nat := t1Base / 10;
    if jitterWindow == 0 {
      t1 := t1Base;
    } else {
      t1 := (t1Base - jitterWindow + jitter % (2 * jitterWindow)) % WORD;
    }
  }

  class Dhcp {
    var state: State
    var xid: nat
    var offeredIp: Bytes
    var serverIp: Bytes
    var subnetMask: Bytes
    var routerIp: Bytes
    var dnsServer: Bytes
    var leaseTime: nat
    var leaseStart: nat
    var renewalTime: nat
    var configured: bool
    var effects: seq<Effect>

    ghost function Now(): Client
      reads this
    {
      Client(state, xid, Offer(offeredIp, serverIp, subnetMask, routerIp, dnsServer), leaseTime, leaseStart,
          renewalTime, configured)
    }

    ghost predicate Valid()
      reads this
    {
      OfferShape(Now().offer)
    }

    /** The record and the effects went on by one outcome. */
    twostate predicate Did(o: Outcome)
      reads this
    {
      Now() == o.client && effects == old(effects) + o.effects
    }

    /** `dhcp_init`. */
    constructor ()
      ensures Valid() && Now() == INITIAL && effects == []
    {
      state, xid, configured := Init, 0, false;
      offeredIp, serverIp, subnetMask, routerIp, dnsServer := ZERO_IP, ZERO_IP, ZERO_IP, ZERO_IP, ZERO_IP;
      leaseTime, leaseStart, renewalTime, effects := 0, 0, 0, [];
    }

    /** `send_dhcp_message`, as far as the options go. */
    method Send(msgType: bv8, requested: Maybe, server: Maybe, mac: Bytes)
      requires |mac| == 6 && Address(requested) && Address(server)
      modifies `effects
      ensures effects == old(effects) + [Sent(Message(mac, msgType, requested, server))]
    {
      hide Encode, Carried;
      var packet := new bv8[MAX_OPTIONS];
      var n, ok := Build(packet, msgType, mac, requested, server);
      effects := effects + [Sent(packet[..n])];
    }

    /** `dhcp_start`. */
    method Start(d: Env)
      requires Valid() && TypedEnv(d)
      modifies this
      ensures Valid() && Did(Started(old(Now()), d))
    {
      xid := if d.xid == 0 then 1 else d.xid;
      state := Selecting;
      Send(DISCOVER, Null, Null, d.mac);
    }

    /** `handle_dhcp`. */
    method HandleDhcp(data: Bytes, d: Env)
      requires Valid() && TypedEnv(d)
      modifies this
      ensures Valid() && Did(Handled(old(Now()), data, d))
      ensures !TakesOffer(old(Now()), data) && !TakesAck(old(Now()), data) && !TakesNak(old(Now()), data) ==>
        Now() == old(Now()) && effects == old(effects)
    {
      hide Value, Read, DecodeCapped, Usable, Message, MaskOf, LeaseOf, RenewAfter;
      if |data| < HEADER {
        return;
      }
      if data[0] != BOOT_REPLY {
        return;
      }
      if Value(data[4..8]) != xid {
        return;
      }
      if Value(data[236..240]) != COOKIE {
        return;
      }
      var f, malformed := Parse(data[HEADER..]);
      if f.msgType == OFFER {
        TakeOffer(data, f, d);
      } else if f.msgType == ACK {
        TakeAck(data, f, d);
      } else if f.msgType == NAK {
        TakeNak(data, f, d);
      }
    }

    /** Saves what was offered. */
    method Store(o: Offer, lease: nat)
      requires OfferShape(o)
      modifies this
      ensures Valid() && Now() == old(Now()).(offer := o, leaseTime := lease, state := Requesting)
      ensures effects == old(effects)
    {
      offeredIp := o.ip;
      serverIp := o.server;
      subnetMask := o.mask;
      routerIp := o.router;
      dnsServer := o.dns;
      leaseTime := lease;
      state := Requesting;
    }

    method TakeOffer(data: Bytes, f: Options, d: Env)
      requires Valid() && TypedEnv(d) && |data| >= HEADER && ForUs(xid, data) && f == Fields(data) && f.msgType == OFFER
      modifies this
      ensures Valid()
      ensures Did(if TakesOffer(old(Now()), data) then Offered(old(Now()), data, d) else Outcome(old(Now()), []))
    {
      hide ForUs, Fields, Usable, Message, MaskOf;
      assert effects + [] == effects;
      if state != Selecting {
        return;
      }
      var ok, mask := OfferIsValid(YourIp(data), f);
      assert ok == TakesOffer(Now(), data);
      assert ok ==> OfferIn(data) == Offer(YourIp(data), f.serverId, mask, f.router, f.dns);
      hide TakesOffer, OfferIn, YourIp;
      if !ok {
        return;
      }
      Store(Offer(YourIp(data), f.serverId, mask, f.router, f.dns), f.lease);
      Send(REQUEST, Ip(offeredIp), Ip(serverIp), d.mac);
    }

    /** Starts the lease. */
    method Bind(lease: nat, now: nat, t1: nat)
      modifies `state, `configured, `leaseTime, `leaseStart, `renewalTime
      ensures Now() == old(Now()).(leaseTime := lease, state := Bound, configured := true, leaseStart := now,
                                   renewalTime := (now + t1) % WORD)
    {
      leaseTime := lease;
      state := Bound;
      configured := true;
      leaseStart := now;
      renewalTime := (leaseStart + t1) % WORD;
    }

    method TakeAck(data: Bytes, f: Options, d: Env)
      requires Valid() && TypedEnv(d) && |data| >= HEADER && ForUs(xid, data) && f == Fields(data) && f.msgType == ACK
      modifies this
      ensures Valid() && Did(if TakesAck(old(Now()), data) then Acked(old(Now()), data, d) else Outcome(old(Now()), []))
    {
      hide ForUs, Fields, LeaseOf, RenewAfter, YourIp, IsZero;
      assert effects + [] == effects;
      ZeroIsZero(f.serverId);
      ZeroIsZero(dnsServer);
      if !(state == Requesting || state == Renewing || state == Rebinding) {
        return;
      }
      if IsZero(f.serverId) || f.serverId != serverIp {
        return;
      }
      if YourIp(data) != offeredIp {
        return;
      }
      assert TakesAck(Now(), data);
      hide TakesAck, FromServer, ZERO_IP;
      var lease, t1 := Schedule(leaseTime, f.lease, d.jitter);
      Bind(lease, d.now, t1);
      effects := effects + [Applied(YourIp(data), subnetMask, routerIp)];
      if !IsZero(dnsServer) {
        effects := effects + [DnsSet(dnsServer)];
      }
    }

    method TakeNak(data: Bytes, f: Options, d: Env)
      requires Valid() && TypedEnv(d) && |data| >= HEADER && ForUs(xid, data) && f == Fields(data) && f.msgType == NAK
      modifies this
      ensures Valid() && Did(if TakesNak(old(Now()), data) then Started(old(Now()), d) else Outcome(old(Now()), []))
    {
      hide ForUs, Fields, Message;
      assert effects + [] == effects;
      ZeroIsZero(f.serverId);
      if (state == Requesting || state == Renewing || state == Rebinding) && !IsZero(f.serverId) &&
          f.serverId == serverIp {
        state := Init;
        Start(d);
      }
    }

    /** `dhcp_tick`. */
    method Tick(d: Env)
      requires Valid() && TypedEnv(d)
      modifies this
      ensures Valid() && Did(Ticked(old(Now()), d))
    {
      hide Message;
      if !configured {
        return;
      }
      var leaseTicks := leaseTime * 100 % WORD;
      match state
      case Bound =>
        if d.now >= renewalTime {
          state := Renewing;
          xid := if d.xid == 0 then 1 else d.xid;
          Send(REQUEST, Ip(offeredIp), Ip(serverIp), d.mac);
        }
      case Renewing =>
        var t2 := (leaseStart + leaseTicks * 7 % WORD / 8) % WORD;
        if d.now >= t2 {
          state := Rebinding;
          xid := if d.xid == 0 then 1 else d.xid;
          Send(REQUEST, Ip(offeredIp), Null, d.mac);
        }
      case Rebinding =>
        var expiration := (leaseStart + leaseTicks) % WORD;
        if d.now >= expiration {
          configured := false;
          state := Init;
          Start(d);
        }
      case _ =>
    }
  }
}
