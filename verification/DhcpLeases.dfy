/** Which lease is in force, from the bytes of the frames, and what the clock does to it. */
module DhcpLeases {
  import opened ByteStrings
  import opened DhcpOptions
  import opened DhcpAddress
  import opened DhcpClient
  import opened DhcpRuns

  // ---------------------------------------------------------------- what a frame says

  /** A lease option: number 51, four bytes. */
  predicate IsLease(o: Option) {
    o.tag == 51 && |o.value| == 4
  }

  function OptionsOf(data: Bytes): seq<Option>
    requires |data| >= HEADER
  {
    DecodeCapped(data[HEADER..], MAX_ITERATIONS).options
  }

  /** The lease in seconds that a frame's last lease option gives, or 0 without one. */
  ghost predicate SaysLease(data: Bytes, seconds: nat)
    requires |data| >= HEADER
  {
    var options := OptionsOf(data);
    if exists i :: 0 <= i < |options| && IsLease(options[i]) then
      exists i :: 0 <= i < |options| && IsLease(options[i]) && seconds == Value(options[i].value)
                  && forall j :: i < j < |options| ==> !IsLease(options[j])
    else seconds == 0
  }

  lemma {:induction false} LastLease(options: seq<Option>) returns (i: int)
    ensures -1 <= i < |options| && forall j :: i < j < |options| ==> !IsLease(options[j])
    ensures i >= 0 ==> IsLease(options[i]) && LastValue(options, LEASE_TIME, 4, true, ZERO_IP) == options[i].value
    ensures i < 0 ==> LastValue(options, LEASE_TIME, 4, true, ZERO_IP) == ZERO_IP
  {
    i := |options| - 1;
    if options != [] {
      assert Fits(options[i], LEASE_TIME, 4, true) <==> IsLease(options[i]);
      if IsLease(options[i]) {
        assert options[i].value[..4] == options[i].value;
      } else {
        var front := options[..i];
        hide IsLease, Fits;
        i := LastLease(front);
        assert forall j :: 0 <= j < |front| ==> options[j] == front[j];
      }
    }
  }

  /** The client reads exactly that. */
  lemma LeaseRead(data: Bytes)
    requires |data| >= HEADER
    ensures SaysLease(data, Fields(data).lease)
  {
    hide DecodeCapped, LastValue, Mentions;
    var i := LastLease(OptionsOf(data));
    ZeroLease();
    hide Value;
  }

  lemma ZeroLease()
    ensures Value(ZERO_IP) == 0
  {
    ReadNothing();
    LastOfNone();
  }

  lemma LastOfNone()
    ensures LastValue([], LEASE_TIME, 4, true, ZERO_IP) == ZERO_IP
  {
  }

  /** The lease that an event brings. */
  function LeaseIn(e: Event): nat {
    if e.Frame? && |e.data| >= HEADER then Fields(e.data).lease else 0
  }

  // ---------------------------------------------------------------- over every run

  /** The last lease other than 0 that was said since the latest accepted OFFER, by it or by an ACK taken since. */
  function Said(events: seq<Event>, k: nat): nat
    requires k <= |events|
  {
    if k == 0 then 0
    else if Accepts(events, k - 1) then LeaseIn(events[k - 1])
    else if AckAt(events, k - 1) && LeaseIn(events[k - 1]) != 0 then LeaseIn(events[k - 1])
    else Said(events, k - 1)
  }

  /** The client takes a lease of a minute to thirty days as said, a shorter one as ten minutes, and a longer one as
      thirty days. */
  predicate Kept(lease: nat, said: nat) {
    && (60 <= said <= 2592000 ==> lease == said)
    && (said < 60 ==> lease == 600)
    && (said > 2592000 ==> lease == 2592000)
  }

  predicate LeaseInv(c: Client, said: nat) {
    && (c.state.Requesting? ==> c.leaseTime == said)
    && (Leased(c.state) ==> Kept(c.leaseTime, said))
  }

  lemma AckKeeps(c: Client, data: Bytes, d: Env, said: nat)
    requires |data| >= HEADER && LeaseInv(c, said) && Outstanding(c.state)
    ensures Kept(Acked(c, data, d).client.leaseTime, if Fields(data).lease != 0 then Fields(data).lease else said)
  {
    hide Fields, RenewAfter;
  }

  lemma LeaseStep(c: Client, e: Event, said: nat)
    requires LeaseInv(c, said)
    ensures var takes := e.Frame? && (TakesOffer(c, e.data) || (TakesAck(c, e.data) && LeaseIn(e) != 0));
            LeaseInv(Step(c, e).client, if takes then LeaseIn(e) else said)
  {
    hide Fields, OfferIn, YourIp, Usable, Message, LeaseOf, RenewAfter, ExpiresAt, RebindAt, Kept;
    if e.Frame? && TakesAck(c, e.data) {
      AckKeeps(c, e.data, e.d, said);
    }
  }

  lemma {:induction false} LeaseHolds(events: seq<Event>, k: nat)
    requires k <= |events|
    ensures LeaseInv(StateAt(events, k), Said(events, k))
  {
    hide TakesOffer, TakesAck, Step, LeaseIn, Kept;
    if k > 0 {
      LeaseHolds(events, k - 1);
      LeaseStep(StateAt(events, k - 1), events[k - 1], Said(events, k - 1));
    }
  }

  /** What was said was said by the OFFER or by an ACK taken since, and by no later one. */
  lemma {:induction false} SaidBy(events: seq<Event>, k: nat, j: nat) returns (i: nat)
    requires j < k <= |events| && Accepts(events, j) && forall i :: j < i < k ==> !Accepts(events, i)
    ensures j <= i < k && (i == j || AckAt(events, i)) && Said(events, k) == LeaseIn(events[i])
    ensures forall n :: i < n < k && AckAt(events, n) ==> LeaseIn(events[n]) == 0
    decreases k
  {
    hide Accepts, AckAt, LeaseIn;
    if k == j + 1 || (AckAt(events, k - 1) && LeaseIn(events[k - 1]) != 0) {
      i := k - 1;
    } else {
      i := SaidBy(events, k - 1, j);
    }
  }

  /** The lease in force began with the latest ACK taken, and no OFFER has been accepted since. */
  lemma {:induction false} BeganWith(events: seq<Event>, k: nat) returns (j: nat)
    requires k <= |events| && Leased(StateAt(events, k).state)
    ensures j < k && AckAt(events, j) && StateAt(events, k).leaseStart == events[j].d.now
    ensures StateAt(events, k).renewalTime == StateAt(events, j + 1).renewalTime
    ensures StateAt(events, k).leaseTime == StateAt(events, j + 1).leaseTime
    ensures forall i :: j < i < k ==> !AckAt(events, i)
    ensures forall i :: j <= i < k ==> !Accepts(events, i)
  {
    hide ForUs, Fields, OfferIn, YourIp, Usable, Message, LeaseOf, RenewAfter, ExpiresAt, RebindAt;
    if AckAt(events, k - 1) {
      j := k - 1;
    } else {
      j := BeganWith(events, k - 1);
    }
  }

  /** Forty-five percent of the lease after its start, plus up to a tenth of it as the random number says. */
  function FirstRenewal(start: nat, lease: nat, random: nat): nat
    requires lease > 0
  {
    (start + (45 * lease + random % (10 * lease))) % WORD
  }

  lemma AckRenewal(c: Client, data: Bytes, d: Env)
    requires |data| >= HEADER
    ensures var c' := Acked(c, data, d).client;
            c'.leaseTime > 0 && c'.renewalTime == FirstRenewal(c'.leaseStart, c'.leaseTime, d.jitter)
  {
    hide Fields, LeaseOf, RenewAfter;
    var lease := LeaseOf(c.leaseTime, Fields(data).lease);
    LeaseBounds(c.leaseTime, Fields(data).lease);
    RenewBounds(lease, d.jitter);
  }

  lemma RenewalSet(events: seq<Event>, j: nat)
    requires j < |events| && AckAt(events, j)
    ensures var c := StateAt(events, j + 1);
            && c.leaseStart == events[j].d.now && c.leaseTime > 0
            && c.renewalTime == FirstRenewal(c.leaseStart, c.leaseTime, events[j].d.jitter)
  {
    hide Fields, OfferIn, Usable, LeaseOf, RenewAfter, FirstRenewal;
    AckRenewal(StateAt(events, j), events[j].data, events[j].d);
  }

  /** Over every run, in every leased state: the lease began at the clock of the latest ACK taken, whose random number
      places T1; it is the one of the last frame, among the latest accepted OFFER and the ACKs taken since, whose last
      option 51 is not 0 (the OFFER if there is none), with less than a minute taken as ten minutes and more than
      thirty days as thirty days. */
  lemma LeaseInForce(events: seq<Event>, k: nat) returns (offer: nat, says: nat, ack: nat, seconds: nat)
    requires TypedEvents(events) && k <= |events| && Leased(StateAt(events, k).state)
    ensures offer <= says <= ack < k && Accepts(events, offer) && AckAt(events, ack)
    ensures forall i :: offer < i < k ==> !Accepts(events, i)
    ensures forall i :: ack < i < k ==> !AckAt(events, i)
    ensures says == offer || AckAt(events, says)
    ensures SaysLease(events[says].data, seconds)
    ensures forall i :: says < i < k && AckAt(events, i) ==> SaysLease(events[i].data, 0)
    ensures StateAt(events, k).leaseTime > 0
    ensures var c := StateAt(events, k);
            && c.leaseStart == events[ack].d.now
            && c.renewalTime == FirstRenewal(c.leaseStart, c.leaseTime, events[ack].d.jitter)
            && (60 <= seconds <= 2592000 ==> c.leaseTime == seconds)
            && (seconds < 60 ==> c.leaseTime == 600)
            && (seconds > 2592000 ==> c.leaseTime == 2592000)
  {
    RunKeepsInv(events, k);
    hide StateAt, LatestOffer, SaysLease, FirstRenewal, LeaseOk;
    ack := BeganWith(events, k);
    RenewalSet(events, ack);
    offer := LatestCameFrom(events, k);
    says := SaidBy(events, k, offer);
    LeaseHolds(events, k);
    FrameOf(events, says);
    seconds := LeaseIn(events[says]);
    LeaseRead(events[says].data);
    forall i | says < i < k && AckAt(events, i) ensures |events[i].data| >= HEADER && SaysLease(events[i].data, 0) {
      FrameOf(events, i);
      LeaseRead(events[i].data);
    }
  }

  lemma FrameOf(events: seq<Event>, i: nat)
    requires i < |events| && (Accepts(events, i) || AckAt(events, i))
    ensures events[i].Frame? && |events[i].data| >= HEADER
  {
    hide Fields, OfferIn, YourIp, Usable, StateAt;
  }

  // ---------------------------------------------------------------- the clock and the effects

  /** Over every run, a tick in a lease that does not wrap moves on exactly by the age of the lease: at the T1 drawn,
      at seven eighths, and at the end. */
  lemma TickByAge(events: seq<Event>, k: nat)
    requires TypedEvents(events) && k < |events| && events[k].Tick? && Leased(StateAt(events, k).state)
    requires StateAt(events, k).leaseStart + StateAt(events, k).leaseTime * 100 < WORD
    requires events[k].d.now >= StateAt(events, k).leaseStart
    ensures var c, c' := StateAt(events, k), StateAt(events, k + 1);
            var age := events[k].d.now - c.leaseStart;
            match c.state
            case Bound => c'.state == if age >= RenewalOffset(c) then Renewing else Bound
            case Renewing => c'.state == if age >= c.leaseTime * 700 / 8 then Rebinding else Renewing
            case _ => c'.configured == (age < c.leaseTime * 100) && (!c'.configured ==> c'.state == Selecting)
  {
    RunKeepsInv(events, k);
    var c := StateAt(events, k);
    assert StateAt(events, k + 1) == Ticked(c, events[k].d).client;
    hide StateAt, LatestOffer, OfferOk, Message;
    AgeOf(c, events[k].d.now);
    hide RenewalOffset, RebindAt, ExpiresAt, LeaseOk;
  }

  lemma AgeOf(c: Client, now: nat)
    requires LeaseOk(c) && c.leaseStart + c.leaseTime * 100 < WORD && now >= c.leaseStart
    ensures now >= c.renewalTime <==> now - c.leaseStart >= RenewalOffset(c)
    ensures now >= RebindAt(c) <==> now - c.leaseStart >= c.leaseTime * 700 / 8
    ensures now >= ExpiresAt(c) <==> now - c.leaseStart >= c.leaseTime * 100
  {
    NoOverflow(c.leaseTime);
    RenewalIs(c);
    OffsetsOrdered(c);
    hide RenewalOffset, Ticks, LeaseOk;
  }

  /** Over every run, a taken ACK has exactly these effects: the address, mask and router of the latest accepted OFFER
      are applied, and its name server is set unless it is 0.0.0.0. No other event has such effects. */
  lemma AckEffects(events: seq<Event>, k: nat)
    requires TypedEvents(events) && k < |events|
    ensures AckAt(events, k) ==>
      && LatestOffer(events, k).Some?
      && var o := LatestOffer(events, k).offer;
         EffectsAt(events, k) ==
         [Applied(o.ip, o.mask, o.router)] + (if o.dns == [0, 0, 0, 0] then [] else [DnsSet(o.dns)])
    ensures !AckAt(events, k) ==> forall a :: a in EffectsAt(events, k) ==> a.Sent?
  {
    RunKeepsInv(events, k);
    hide StateAt, LatestOffer, Fields, OfferIn, YourIp, Usable, Message, LeaseOf, RenewAfter, LeaseOk;
  }
}
