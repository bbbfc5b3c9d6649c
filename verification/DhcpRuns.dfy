/** What holds over every run of starts, frames and ticks. */
module DhcpRuns {
  import opened ByteStrings
  import opened DhcpOptions
  import opened DhcpAddress
  import opened DhcpClient

  datatype Event = Start(d: Env) | Frame(data: Bytes, d: Env) | Tick(d: Env)

  predicate TypedEvents(events: seq<Event>) {
    forall i :: 0 <= i < |events| ==> TypedEnv(events[i].d)
  }

  function Step(c: Client, e: Event): Outcome {
    match e
    case Start(d) => Started(c, d)
    case Frame(data, d) => Handled(c, data, d)
    case Tick(d) => Ticked(c, d)
  }

  /** The record after the first k events. */
  function StateAt(events: seq<Event>, k: nat): Client
    requires k <= |events|
  {
    if k == 0 then INITIAL else Step(StateAt(events, k - 1), events[k - 1]).client
  }

  function EffectsAt(events: seq<Event>, k: nat): seq<Effect>
    requires k < |events|
  {
    Step(StateAt(events, k), events[k]).effects
  }

  // ---------------------------------------------------------------- the latest accepted offer

  datatype Latest = None | Some(offer: Offer)

  predicate Accepts(events: seq<Event>, k: nat)
    requires k < |events|
  {
    events[k].Frame? && TakesOffer(StateAt(events, k), events[k].data)
  }

  /** The offer of the last accepted OFFER among the first k events. */
  function LatestOffer(events: seq<Event>, k: nat): Latest
    requires k <= |events|
  {
    if k == 0 then None
    else if Accepts(events, k - 1) then Some(OfferIn(events[k - 1].data))
    else LatestOffer(events, k - 1)
  }

  /** It came in an event that no later accepted OFFER overrides. */
  lemma {:induction false} LatestCameFrom(events: seq<Event>, k: nat) returns (j: nat)
    requires k <= |events| && LatestOffer(events, k).Some?
    ensures j < k && Accepts(events, j) && LatestOffer(events, k).offer == OfferIn(events[j].data)
    ensures forall i :: j < i < k ==> !Accepts(events, i)
  {
    hide Accepts, OfferIn;
    if Accepts(events, k - 1) {
      j := k - 1;
    } else {
      j := LatestCameFrom(events, k - 1);
    }
  }

  // ---------------------------------------------------------------- the invariant

  predicate Leased(s: State) {
    s.Bound? || s.Renewing? || s.Rebinding?
  }

  /** From the start of the lease to T1, read off the record. */
  function RenewalOffset(c: Client): nat {
    (c.renewalTime + WORD - c.leaseStart % WORD) % WORD
  }

  /** The lease is 60 seconds to 30 days, and T1 is within a tenth of its half. */
  predicate LeaseOk(c: Client) {
    && MIN_LEASE <= c.leaseTime <= MAX_LEASE && c.leaseStart < WORD && c.renewalTime < WORD
    && 45 * c.leaseTime <= RenewalOffset(c) < 55 * c.leaseTime
  }

  predicate OfferOk(c: Client, latest: Latest) {
    && OfferShape(c.offer)
    && (latest.Some? ==> c.offer == latest.offer && Usable(c.offer))
    && (Leased(c.state) || c.state.Requesting? ==> latest.Some?)
  }

  predicate Inv(c: Client, latest: Latest) {
    && OfferOk(c, latest) && (Leased(c.state) ==> c.configured && LeaseOk(c))
    && c.xid < WORD && (c.state != Init ==> c.xid != 0)
  }

  lemma OffsetBack(start: nat, after: nat)
    requires start < WORD && after < WORD
    ensures ((start + after) % WORD + WORD - start % WORD) % WORD == after
  {
  }

  lemma AckedLease(c: Client, data: Bytes, d: Env)
    requires |data| >= HEADER && TypedEnv(d)
    ensures LeaseOk(Acked(c, data, d).client)
  {
    hide Fields, YourIp, LeaseOf, RenewAfter;
    var lease := LeaseOf(c.leaseTime, Fields(data).lease);
    LeaseBounds(c.leaseTime, Fields(data).lease);
    RenewBounds(lease, d.jitter);
    OffsetBack(d.now, RenewAfter(lease, d.jitter));
  }

  lemma SameLease(c: Client, c': Client)
    requires LeaseOk(c) && c'.leaseTime == c.leaseTime && c'.leaseStart == c.leaseStart
    requires c'.renewalTime == c.renewalTime
    ensures LeaseOk(c')
  {
  }

  lemma StepKeepsInv(c: Client, e: Event, latest: Latest)
    requires Inv(c, latest) && TypedEnv(e.d)
    ensures Inv(Step(c, e).client, if e.Frame? && TakesOffer(c, e.data) then Some(OfferIn(e.data)) else latest)
  {
    hide Fields, OfferIn, YourIp, Usable, Message, LeaseOf, RenewAfter, LeaseOk, RebindAt, ExpiresAt;
    var c' := Step(c, e).client;
    if e.Frame? && TakesAck(c, e.data) {
      AckedLease(c, e.data, e.d);
    } else if Leased(c'.state) {
      SameLease(c, c');
    }
  }

  lemma {:induction false} RunKeepsInv(events: seq<Event>, k: nat)
    requires TypedEvents(events) && k <= |events|
    ensures Inv(StateAt(events, k), LatestOffer(events, k))
  {
    hide Inv, Step, TakesOffer, OfferIn;
    if k == 0 {
      InitialInv();
    } else {
      RunKeepsInv(events, k - 1);
      StepKeepsInv(StateAt(events, k - 1), events[k - 1], LatestOffer(events, k - 1));
    }
  }

  lemma InitialInv()
    ensures Inv(INITIAL, None)
  {
  }

  /** Once started, the client never waits on transaction number zero. */
  lemma XidNeverZero(events: seq<Event>, k: nat)
    requires TypedEvents(events) && k <= |events|
    ensures StateAt(events, k).state != Init ==> 0 < StateAt(events, k).xid < WORD
    ensures k > 0 && events[0].Start? ==> StateAt(events, k).state != Init
  {
    hide StateAt, LatestOffer;
    RunKeepsInv(events, k);
    if k > 0 && events[0].Start? {
      NeverInitAgain(events, k);
    }
  }

  lemma {:induction false} NeverInitAgain(events: seq<Event>, k: nat)
    requires 0 < k <= |events| && events[0].Start?
    ensures StateAt(events, k).state != Init
  {
    hide ForUs, Fields, OfferIn, YourIp, Usable, Message, LeaseOf, RenewAfter, ExpiresAt, RebindAt;
    if k > 1 {
      NeverInitAgain(events, k - 1);
    } else {
      assert StateAt(events, 1) == Step(StateAt(events, 0), events[0]).client;
    }
  }

  // ---------------------------------------------------------------- what reaches the network configuration

  /** An acknowledgement of this offer: same server, same address. */
  predicate Acknowledges(e: Event, o: Offer) {
    && e.Frame? && |e.data| >= HEADER && Fields(e.data).msgType == ACK
    && Fields(e.data).serverId == o.server && YourIp(e.data) == o.ip
  }

  /** A configuration is applied exactly by a taken ACK, and it is the one in the record. */
  lemma StepApplies(c: Client, e: Event, a: Effect)
    requires a.Applied?
    ensures a in Step(c, e).effects
       <==> e.Frame? && TakesAck(c, e.data) && a == Applied(c.offer.ip, c.offer.mask, c.offer.router)
  {
    hide Fields, OfferIn, YourIp, Usable, Message, LeaseOf, RenewAfter;
  }

  /** In every run, each network configuration that is applied is the address, mask and router of the
      latest accepted OFFER, applied on an ACK with that OFFER's server and address, and is usable. */
  lemma AppliedIsLatestOffer(events: seq<Event>, k: nat, a: Effect)
    requires TypedEvents(events) && k < |events| && a.Applied?
    ensures a in EffectsAt(events, k) ==>
      && LatestOffer(events, k).Some?
      && var o := LatestOffer(events, k).offer;
         a == Applied(o.ip, o.mask, o.router) && Acknowledges(events[k], o) && OfferShape(o) && Usable(o)
  {
    hide Step, Fields, OfferIn, YourIp, Usable, StateAt, LatestOffer;
    RunKeepsInv(events, k);
    StepApplies(StateAt(events, k), events[k], a);
  }

  /** Read from the bytes: a reply to this transaction whose last message type is OFFER, ACK or NAK, and whose
      last four-byte server identifier is not zero. */
  predicate Speaks(xid: nat, data: Bytes, i: nat, j: nat) {
    |data| >= HEADER &&
    var options := DecodeCapped(data[HEADER..], MAX_ITERATIONS).options;
    && data[0] == BOOT_REPLY && Value(data[4..8]) == xid && Value(data[236..240]) == COOKIE
    && i < |options| && LastFit(options, MESSAGE_TYPE, 1, false, i) && options[i].value[0] in {OFFER, ACK, NAK}
    && j < |options| && LastFit(options, SERVER_ID, 4, true, j) && options[j].value != ZERO_IP
  }

  /** Every frame that changes the record or has an effect is of that kind. */
  lemma ActingFrameSpeaks(c: Client, data: Bytes, d: Env)
    requires Handled(c, data, d) != Outcome(c, [])
    ensures exists i: nat, j: nat :: Speaks(c.xid, data, i, j)
  {
    assert ForUs(c.xid, data) && Fields(data).msgType in {OFFER, ACK, NAK} && Fields(data).serverId != ZERO_IP by {
      TakenNamesServer(c, data);
      hide ForUs, Fields, OfferIn, YourIp, Usable, Message, LeaseOf, RenewAfter;
    }
    hide Handled;
    var options := DecodeCapped(data[HEADER..], MAX_ITERATIONS).options;
    hide DecodeCapped, LastValue;
    var i := FoundAt(options, MESSAGE_TYPE, 1, false, [0]);
    var j := FoundAt(options, SERVER_ID, 4, true, ZERO_IP);
    assert options[j].value[..4] == options[j].value;
    assert options[i].value[..1][0] == options[i].value[0];
    assert Speaks(c.xid, data, i, j);
  }

  lemma TakenNamesServer(c: Client, data: Bytes)
    ensures TakesOffer(c, data) ==> Fields(data).serverId != ZERO_IP
  {
    hide ForUs, Fields, YourIp, MaskOf, MaskTest, Word, IsHost, SameNet, IsSpecial;
  }

  /** The request that follows an accepted OFFER reads back as a REQUEST to the offering server. */
  lemma RequestNamesServer(events: seq<Event>, k: nat)
    requires TypedEvents(events) && k < |events| && Accepts(events, k)
    ensures exists m :: EffectsAt(events, k) == [Sent(m)]
              && Read(Decode(m).options).msgType == REQUEST
              && Read(Decode(m).options).serverId == OfferIn(events[k].data).server
  {
    assert ForUs(StateAt(events, k).xid, events[k].data);
    hide ForUs, Fields, OfferIn, YourIp, Usable, Encode, Carried, Decode, Read, StateAt;
    var o, d := OfferIn(events[k].data), events[k].d;
    BuiltReadsBack(REQUEST, d.mac, Ip(o.ip), Ip(o.server), []);
    var m := Message(d.mac, REQUEST, Ip(o.ip), Ip(o.server));
    assert [END] + [] == [END];
    assert EffectsAt(events, k) == [Sent(m)];
  }

  // ---------------------------------------------------------------- the lease

  predicate Ordered(c: Client) {
    c.leaseStart <= c.renewalTime < RebindAt(c) < ExpiresAt(c)
  }

  /** T1 is before T2, and T2 before the end, counted from the start of the lease. */
  lemma OffsetsOrdered(c: Client)
    requires LeaseOk(c)
    ensures 0 < RenewalOffset(c) < Ticks(c.leaseTime) * 7 % WORD / 8 < Ticks(c.leaseTime) == c.leaseTime * 100
  {
    NoOverflow(c.leaseTime);
  }

  /** Read on the 32-bit clock, the three times are in order exactly when the end of the lease does not wrap. */
  lemma OrderedIff(c: Client)
    requires LeaseOk(c)
    ensures Ordered(c) <==> c.leaseStart + c.leaseTime * 100 < WORD
  {
    hide RenewalOffset, Ticks;
    OffsetsOrdered(c);
    RenewalIs(c);
    Unwrapped(c.leaseStart, RenewalOffset(c), Ticks(c.leaseTime) * 7 % WORD / 8, Ticks(c.leaseTime));
  }

  lemma RenewalIs(c: Client)
    requires c.leaseStart < WORD && c.renewalTime < WORD
    ensures c.renewalTime == (c.leaseStart + RenewalOffset(c)) % WORD
  {
  }

  lemma Unwrapped(start: nat, a: nat, b: nat, n: nat)
    requires start < WORD && 0 < a < b < n < WORD
    ensures start <= (start + a) % WORD < (start + b) % WORD < (start + n) % WORD <==> start + n < WORD
  {
    if start + n >= WORD {
      assert (start + n) % WORD == start + n - WORD;
    }
  }

  /** In every reachable leased state: the lease is in range, no tick product overflows, T1 comes strictly
      before T2 and T2 strictly before the end, on the clock too unless the end of the lease wraps. */
  lemma LeaseInEveryRun(events: seq<Event>, k: nat)
    requires TypedEvents(events) && k <= |events| && Leased(StateAt(events, k).state)
    ensures var c := StateAt(events, k);
            && c.configured && MIN_LEASE <= c.leaseTime <= MAX_LEASE
            && Ticks(c.leaseTime) == c.leaseTime * 100 && Ticks(c.leaseTime) * 7 % WORD == c.leaseTime * 700
            && 0 < RenewalOffset(c) < c.leaseTime * 700 / 8 < c.leaseTime * 100
            && (Ordered(c) <==> c.leaseStart + c.leaseTime * 100 < WORD)
  {
    hide StateAt, LatestOffer, OfferOk, RenewalOffset, Ordered;
    var c := StateAt(events, k);
    RunKeepsInv(events, k);
    NoOverflow(c.leaseTime);
    OffsetsOrdered(c);
    OrderedIff(c);
  }

  /** A step clears `configured` exactly when it is a tick in REBINDING at or after the end of the lease. */
  lemma ClearedIff(c: Client, e: Event)
    ensures c.configured && !Step(c, e).client.configured
       <==> c.configured && e.Tick? && c.state.Rebinding? && e.d.now >= ExpiresAt(c)
  {
    hide ForUs, Fields, OfferIn, YourIp, Usable, Message, LeaseOf, RenewAfter, ExpiresAt, RebindAt;
  }

  /** In every run `configured` is cleared only by a tick, and when the end of the lease does not wrap, only
      after the whole lease. */
  lemma ClearedAfterExpiry(events: seq<Event>, k: nat)
    requires TypedEvents(events) && k < |events|
    ensures var c := StateAt(events, k);
            c.configured && !StateAt(events, k + 1).configured ==>
            && events[k].Tick? && c.state.Rebinding? && events[k].d.now >= ExpiresAt(c)
            && (c.leaseStart + c.leaseTime * 100 < WORD ==> events[k].d.now - c.leaseStart >= c.leaseTime * 100)
  {
    hide Step, LatestOffer, OfferOk;
    var c := StateAt(events, k);
    ClearedIff(c, events[k]);
    RunKeepsInv(events, k);
    if Leased(c.state) {
      NoOverflow(c.leaseTime);
    }
  }

  /** A tick at this time would end a lease that is being rebound. */
  predicate Ends(c: Client, now: nat) {
    now >= ExpiresAt(c)
  }

  /** No tick after the start of the lease ends it before its time. */
  ghost predicate NeverEarly(c: Client) {
    forall now: nat :: c.leaseStart <= now < WORD && Ends(c, now) ==> now - c.leaseStart >= c.leaseTime * 100
  }

  /** That holds exactly when the end of the lease does not wrap. */
  lemma NeverEarlyIff(c: Client)
    requires LeaseOk(c)
    ensures NeverEarly(c) <==> c.leaseStart + c.leaseTime * 100 < WORD
  {
    NoOverflow(c.leaseTime);
    if c.leaseStart + c.leaseTime * 100 >= WORD {
      assert ExpiresAt(c) == c.leaseStart + c.leaseTime * 100 - WORD;
      assert Ends(c, c.leaseStart);
    }
  }

  /** A lease so close to the wrap that even T1 lies beyond it. */
  predicate WrapsWhole(c: Client) {
    LeaseOk(c) && c.leaseStart + RenewalOffset(c) >= WORD
  }

  lemma WrappedTimes(c: Client)
    requires WrapsWhole(c)
    ensures c.renewalTime < c.leaseStart && RebindAt(c) < c.leaseStart && ExpiresAt(c) < c.leaseStart
  {
    RenewalIs(c);
    OffsetsOrdered(c);
    hide RenewalOffset, Ticks, LeaseOk;
    WrapBelow(c.leaseStart, RenewalOffset(c));
    WrapBelow(c.leaseStart, Ticks(c.leaseTime) * 7 % WORD / 8);
    WrapBelow(c.leaseStart, Ticks(c.leaseTime));
  }

  lemma WrapBelow(start: nat, n: nat)
    requires start < WORD && n < WORD && start + n >= WORD
    ensures (start + n) % WORD < start
  {
    assert (start + n) % WORD == start + n - WORD;
  }

  /** Any tick from the start of such a lease on moves on by one state, and out of the last. */
  lemma WrappedTick(c: Client, d: Env)
    requires Leased(c.state) && c.configured && WrapsWhole(c) && c.leaseStart <= d.now
    ensures var c' := Ticked(c, d).client;
            if c.state.Rebinding? then !c'.configured
            else
              && c'.configured && WrapsWhole(c') && c'.leaseStart == c.leaseStart
              && c'.state == (if c.state.Bound? then Renewing else Rebinding)
  {
    hide Message, RebindAt, ExpiresAt, WrapsWhole;
    WrappedTimes(c);
    if !c.state.Rebinding? {
      SameWrap(c, Ticked(c, d).client);
    }
  }

  lemma SameWrap(c: Client, c': Client)
    requires WrapsWhole(c)
    requires c'.leaseTime == c.leaseTime && c'.leaseStart == c.leaseStart && c'.renewalTime == c.renewalTime
    ensures WrapsWhole(c')
  {
  }

  /** Any three ticks from the start of such a lease on give the address up, however early they come. */
  lemma WrapExpiresAtOnce(c: Client, d: Env, d': Env, d'': Env)
    requires Leased(c.state) && c.configured && WrapsWhole(c)
    requires c.leaseStart <= d.now && c.leaseStart <= d'.now && c.leaseStart <= d''.now
    ensures !Ticked(Ticked(Ticked(c, d).client, d').client, d'').client.configured
  {
    hide Ticked, WrapsWhole;
    var one := Ticked(c, d).client;
    var two := Ticked(one, d').client;
    WrappedTick(c, d);
    if one.configured {
      WrappedTick(one, d');
    } else {
      StaysCleared(one, d');
    }
    if two.configured {
      WrappedTick(two, d'');
    } else {
      StaysCleared(two, d'');
    }
  }

  /** A tick at or after the end of an ordered lease moves on by one state, and out of the last. */
  lemma TickMovesOn(c: Client, d: Env)
    requires Leased(c.state) && c.configured && Ordered(c) && d.now >= ExpiresAt(c)
    ensures var c' := Ticked(c, d).client;
            if c.state.Rebinding? then !c'.configured
            else
              && c'.configured && Ordered(c') && ExpiresAt(c') == ExpiresAt(c)
              && c'.state == (if c.state.Bound? then Renewing else Rebinding)
  {
    hide Message, Ticks;
  }

  lemma StaysCleared(c: Client, d: Env)
    requires !c.configured
    ensures !Ticked(c, d).client.configured
  {
  }

  /** Three ticks at or after the end of a lease that does not wrap clear a configuration if and only if the
      client is in a leased state. */
  lemma ThreeTicksExpireIff(c: Client, d: Env, d': Env, d'': Env)
    requires c.configured && (Leased(c.state) ==> LeaseOk(c) && c.leaseStart + c.leaseTime * 100 < WORD)
    requires d.now >= ExpiresAt(c) && d'.now >= ExpiresAt(c) && d''.now >= ExpiresAt(c)
    ensures !Ticked(Ticked(Ticked(c, d).client, d').client, d'').client.configured <==> Leased(c.state)
  {
    if Leased(c.state) {
      OrderedIff(c);
      hide Ticked, LeaseOk, Ordered, ExpiresAt;
      var one := Ticked(c, d).client;
      var two := Ticked(one, d').client;
      TickMovesOn(c, d);
      if one.configured {
        TickMovesOn(one, d');
      } else {
        StaysCleared(one, d');
      }
      if two.configured {
        TickMovesOn(two, d'');
      } else {
        StaysCleared(two, d'');
      }
    }
  }

  // ---------------------------------------------------------------- a restart in a configured state

  /** Configured, but looking for a new address. */
  predicate Seeking(c: Client) {
    c.configured && (c.state.Selecting? || c.state.Requesting?)
  }

  /** An honoured NAK or a start, in a configured state. */
  predicate RestartsAt(events: seq<Event>, j: nat)
    requires j < |events|
  {
    StateAt(events, j).configured &&
    (events[j].Start? || (events[j].Frame? && TakesNak(StateAt(events, j), events[j].data)))
  }

  predicate AckAt(events: seq<Event>, i: nat)
    requires i < |events|
  {
    events[i].Frame? && TakesAck(StateAt(events, i), events[i].data)
  }

  ghost predicate NoAckBetween(events: seq<Event>, j: nat, k: nat)
    requires k <= |events|
  {
    forall i :: j < i < k ==> !AckAt(events, i)
  }

  predicate AppliesNothing(effects: seq<Effect>) {
    forall a :: a in effects ==> !a.Applied?
  }

  lemma SeekingStep(c: Client, e: Event)
    requires Seeking(c) && !(e.Frame? && TakesAck(c, e.data))
    ensures Seeking(Step(c, e).client) && AppliesNothing(Step(c, e).effects)
  {
    hide ForUs, Fields, OfferIn, YourIp, Usable, Message, LeaseOf, RenewAfter, RebindAt, ExpiresAt;
  }

  lemma RestartStep(c: Client, e: Event)
    requires c.configured && (e.Start? || (e.Frame? && TakesNak(c, e.data)))
    ensures Seeking(Step(c, e).client) && AppliesNothing(Step(c, e).effects)
  {
    hide ForUs, Fields, OfferIn, YourIp, Usable, Message, LeaseOf, RenewAfter;
  }

  /** After an honoured NAK or a start in a configured state, until the next taken ACK, the client stays
      configured and seeking and applies nothing, whatever frames and ticks come: the old configuration
      does not expire. */
  lemma {:induction false} OldConfigurationStays(events: seq<Event>, j: nat, k: nat)
    requires j < k <= |events| && RestartsAt(events, j) && NoAckBetween(events, j, k)
    ensures Seeking(StateAt(events, k))
    ensures forall i :: j <= i < k ==> AppliesNothing(EffectsAt(events, i))
    decreases k
  {
    hide Step, TakesAck, TakesNak, AppliesNothing, Seeking;
    if k == j + 1 {
      RestartStep(StateAt(events, j), events[j]);
    } else {
      OldConfigurationStays(events, j, k - 1);
      assert !AckAt(events, k - 1);
      SeekingStep(StateAt(events, k - 1), events[k - 1]);
    }
  }
}
