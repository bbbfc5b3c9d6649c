/** What the ring says after any run. */
module AuditRuns {
  import opened ByteStrings
  import opened Audit

  // ---------------------------------------------------------------- the list behind the ring

  /** All events since the last init or clear, and the number of the first of them. */
  datatype Trail = Trail(events: seq<Event>, base: nat)

  function Min(a: nat, b: nat): nat {
    if a < b then a else b
  }

  /** The tag an event was chained to. */
  function Before(events: seq<Event>, i: nat): Bytes
    requires i <= |events|
  {
    if i == 0 then ZERO_TAG else events[i - 1].hmac
  }

  /** Event i carries number base + i and the tag of everything before it. */
  predicate EventOk(mac: Mac, tr: Trail, i: nat)
    requires i < |tr.events|
  {
    var e := tr.events[i];
    Typed(e) && e.sequence == (tr.base + i) % RANGE && e.hmac == Tag(mac, Before(tr.events, i), e)
  }

  ghost predicate TrailOk(mac: Mac, tr: Trail) {
    forall i :: 0 <= i < |tr.events| ==> EventOk(mac, tr, i)
  }

  predicate StatsOk(s: Log, tr: Trail) {
    var n := |tr.events|;
    && s.stats.total == s.next
    && s.stats.inBuffer == s.count <= n
    && s.stats.dropped == (n - s.count) % RANGE
    && EndStats(s, tr)
  }

  predicate EndStats(s: Log, tr: Trail) {
    var n := |tr.events|;
    n > 0 ==>
      0 < s.count <= n && s.stats.oldest == tr.events[n - s.count].sequence &&
          s.stats.newest == tr.events[n - 1].sequence
  }

  predicate CountersOk(s: Log, tr: Trail) {
    && s.count == Min(|tr.events|, SIZE)
    && s.head == |tr.events| % SIZE
    && s.next == (tr.base + |tr.events|) % RANGE
    && s.prev == Before(tr.events, |tr.events|)
  }

  ghost predicate RingOk(s: Log, tr: Trail) {
    && |s.slots| == SIZE && s.count <= |tr.events|
    && (forall i :: |tr.events| - s.count <= i < |tr.events| ==> s.slots[i % SIZE] == tr.events[i])
  }

  /** The log stands for the trail. */
  ghost predicate Represents(mac: Mac, s: Log, tr: Trail) {
    Shaped(s) && TrailOk(mac, tr) && CountersOk(s, tr) && RingOk(s, tr) && StatsOk(s, tr)
  }

  lemma FreshRepresents(mac: Mac)
    ensures Represents(mac, Fresh(), Trail([], 0))
  {
  }

  lemma WipedRepresents(mac: Mac, s: Log, tr: Trail)
    requires Represents(mac, s, tr)
    ensures Represents(mac, Wiped(s), Trail([], s.next))
  {
    hide Tag;
    assert s.next % RANGE == s.next;
  }

  function Extended(mac: Mac, s: Log, tr: Trail, n: Entry): Trail
    requires Shaped(s) && TypedEntry(n)
  {
    Trail(tr.events + [NewEvent(mac, s, n)], tr.base)
  }

  lemma LoggedRepresents(mac: Mac, s: Log, tr: Trail, n: Entry)
    requires Represents(mac, s, tr) && TypedEntry(n)
    ensures Represents(mac, Logged(mac, s, n), Extended(mac, s, tr, n))
  {
    var s', tr', e := Logged(mac, s, n), Extended(mac, s, tr, n), NewEvent(mac, s, n);
    ExtendedOk(mac, s, tr, n);
    LoggedCounters(mac, s, tr, n);
    LoggedShape(mac, s, n);
    hide TrailOk, NewEvent, Logged;
    RingStep(s, tr, s', tr', e);
    DroppedStep(s, tr);
    hide RingOk, Shaped;
    StatsStep(s, tr, s', tr', e);
  }

  lemma LoggedShape(mac: Mac, s: Log, n: Entry)
    requires Shaped(s) && TypedEntry(n)
    ensures var s', e := Logged(mac, s, n), NewEvent(mac, s, n);
            && Shaped(s') && s'.slots == s.slots[s.head := e] && s'.count == Min(s.count + 1, SIZE)
            && s'.next == (s.next + 1) % RANGE && s'.stats.total == (s.stats.total + 1) % RANGE
            && s'.stats.inBuffer == s'.count && s'.stats.newest == e.sequence
            && s'.stats.dropped == (if s.count < SIZE then s.stats.dropped else (s.stats.dropped + 1) % RANGE)
            && s'.stats.oldest == if s'.count == SIZE then s'.slots[s'.head].sequence else s'.slots[0].sequence
  {
    hide NewEvent;
  }

  lemma LoggedCounters(mac: Mac, s: Log, tr: Trail, n: Entry)
    requires Shaped(s) && CountersOk(s, tr) && TypedEntry(n)
    ensures CountersOk(Logged(mac, s, n), Extended(mac, s, tr, n))
  {
    hide NewEvent, Shaped;
    NextNumber(tr.base + |tr.events|);
    NextHead(|tr.events|);
  }

  /** The statistics that a call writes. */
  lemma StatsStep(s: Log, tr: Trail, s': Log, tr': Trail, e: Event)
    requires StatsOk(s, tr) && CountersOk(s, tr) && CountersOk(s', tr') && RingOk(s', tr')
    requires s.head < |s.slots| == SIZE && s'.next == (s.next + 1) % RANGE
    requires tr'.events == tr.events + [e] && s'.slots == s.slots[s.head := e]
    requires s'.stats.total == (s.stats.total + 1) % RANGE && s'.stats.inBuffer == s'.count
    requires s'.stats.newest == e.sequence
    requires s'.stats.dropped == (|tr'.events| - s'.count) % RANGE
    requires s'.stats.oldest == if s'.count == SIZE then s'.slots[s'.head].sequence else s'.slots[0].sequence
    ensures StatsOk(s', tr')
  {
    var n' := |tr'.events|;
    if s'.count == SIZE {
      SameSlot(n');
      assert s'.slots[(n' - SIZE) % SIZE] == tr'.events[n' - SIZE];
    } else {
      assert s'.slots[0 % SIZE] == tr'.events[0];
    }
  }

  lemma SameSlot(n: nat)
    requires n >= SIZE
    ensures (n - SIZE) % SIZE == n % SIZE
  {
  }

  lemma ExtendedOk(mac: Mac, s: Log, tr: Trail, n: Entry)
    requires Represents(mac, s, tr) && TypedEntry(n)
    ensures TrailOk(mac, Extended(mac, s, tr, n))
  {
    var tr', k := Extended(mac, s, tr, n), |tr.events|;
    NewEventOk(mac, s, tr, n);
    hide EventOk, NewEvent, Shaped, StatsOk, CountersOk, RingOk;
    forall i | 0 <= i < k ensures EventOk(mac, tr', i) {
      assert EventOk(mac, tr, i);
      OldEventOk(mac, tr, tr', i);
    }
  }

  lemma NewEventOk(mac: Mac, s: Log, tr: Trail, n: Entry)
    requires Shaped(s) && CountersOk(s, tr) && TypedEntry(n)
    ensures EventOk(mac, Extended(mac, s, tr, n), |tr.events|)
  {
    var e := NewEvent(mac, s, n);
    TagIgnoresOwn(mac, s.prev, e);
    hide Tag, Stored;
    assert Before(Extended(mac, s, tr, n).events, |tr.events|) == s.prev;
  }

  lemma OldEventOk(mac: Mac, tr: Trail, tr': Trail, i: nat)
    requires |tr'.events| > |tr.events| > i && tr'.events[..|tr.events|] == tr.events && tr'.base == tr.base
    requires EventOk(mac, tr, i)
    ensures EventOk(mac, tr', i)
  {
    hide Tag;
    assert tr'.events[i] == tr'.events[..|tr.events|][i];
    assert i > 0 ==> tr'.events[i - 1] == tr'.events[..|tr.events|][i - 1];
  }

  /** The tag field itself is not part of the message. */
  lemma TagIgnoresOwn(mac: Mac, prev: Bytes, e: Event)
    ensures Tag(mac, prev, e) == Tag(mac, prev, e.(hmac := ZERO_TAG))
  {
  }

  lemma NextNumber(x: nat)
    ensures (x % RANGE + 1) % RANGE == (x + 1) % RANGE
  {
  }

  lemma NextHead(n: nat)
    ensures (n % SIZE + 1) % SIZE == (n + 1) % SIZE
  {
  }

  lemma DroppedStep(s: Log, tr: Trail)
    requires s.count == Min(|tr.events|, SIZE) && s.stats.dropped == (|tr.events| - s.count) % RANGE
    ensures s.count == SIZE ==> (s.stats.dropped + 1) % RANGE == (|tr.events| + 1 - SIZE) % RANGE
    ensures s.count < SIZE ==> s.stats.dropped == 0
  {
    if s.count == SIZE {
      NextNumber(|tr.events| - SIZE);
    }
  }

  /** Writing at the head overwrites the slot of the event that falls out, and no other. */
  lemma RingStep(s: Log, tr: Trail, s': Log, tr': Trail, e: Event)
    requires RingOk(s, tr) && s.head == |tr.events| % SIZE && s.count == Min(|tr.events|, SIZE)
    requires s'.slots == s.slots[s.head := e] && tr'.events == tr.events + [e]
    requires s'.count == Min(|tr'.events|, SIZE)
    ensures RingOk(s', tr')
  {
    var n := |tr.events|;
    forall i | n + 1 - s'.count <= i < n + 1 ensures s'.slots[i % SIZE] == tr'.events[i] {
      if i < n {
        OtherSlot(i, n);
        assert s.slots[i % SIZE] == tr.events[i];
      }
    }
  }

  lemma OtherSlot(i: nat, n: nat)
    requires n - SIZE < i < n
    ensures i % SIZE != n % SIZE
  {
  }

  // ---------------------------------------------------------------- reading the ring

  /** What survives of the trail: its last min(n, 1000) events. */
  function Survivors(tr: Trail): seq<Event> {
    tr.events[|tr.events| - Min(|tr.events|, SIZE)..]
  }

  /** The ring, read from its start index, is the end of the trail in order. */
  lemma ChronicleIsTail(mac: Mac, s: Log, tr: Trail)
    requires Represents(mac, s, tr)
    ensures Chronicle(s) == Survivors(tr)
  {
    hide TrailOk, StatsOk;
    var first := |tr.events| - s.count;
    forall i | 0 <= i < s.count ensures Chronicle(s)[i] == Survivors(tr)[i] {
      SlotOf(|tr.events|, s.count, i);
      assert s.slots[(first + i) % SIZE] == tr.events[first + i];
      assert Chronicle(s)[i] == s.slots[(StartIndex(s) + i) % SIZE];
      assert Survivors(tr)[i] == tr.events[first + i];
    }
  }

  lemma SlotOf(n: nat, count: nat, i: nat)
    requires count == Min(n, SIZE) && i < count
    ensures ((if count < SIZE then 0 else n % SIZE) + i) % SIZE == (n - count + i) % SIZE
  {
  }

  // ---------------------------------------------------------------- whole runs

  datatype Op = LogOp(n: Entry) | VerifyOp | ClearOp(n: Entry)

  predicate TypedOps(ops: seq<Op>) {
    forall i :: 0 <= i < |ops| ==> ops[i].VerifyOp? || TypedEntry(ops[i].n)
  }

  function RunLog(mac: Mac, s: Log, ops: seq<Op>): (s': Log)
    requires Shaped(s) && TypedOps(ops)
    ensures Shaped(s')
    decreases |ops|
  {
    if ops == [] then s
    else
      var k := |ops| - 1;
      var before := RunLog(mac, s, ops[..k]);
      match ops[k]
      case LogOp(n) => Logged(mac, before, n)
      case VerifyOp => Verified(mac, before)
      case ClearOp(n) => Cleared(mac, before, n)
  }

  /** The trail that a run leaves: logs are added, and a clear by root starts afresh. */
  function RunTrail(mac: Mac, s: Log, tr: Trail, ops: seq<Op>): Trail
    requires Shaped(s) && TypedOps(ops)
    decreases |ops|
  {
    if ops == [] then tr
    else
      var k := |ops| - 1;
      var before, trail := RunLog(mac, s, ops[..k]), RunTrail(mac, s, tr, ops[..k]);
      match ops[k]
      case LogOp(n) => Extended(mac, before, trail, n)
      case VerifyOp => trail
      case ClearOp(n) =>
        if n.uid == 0 then Trail([], Logged(mac, before, n).next) else Extended(mac, before, trail, n)
  }

  /** How many events have been logged since the last clear by root. */
  function SinceClear(ops: seq<Op>, start: nat): nat
    decreases |ops|
  {
    if ops == [] then start
    else
      var k := |ops| - 1;
      match ops[k]
      case LogOp(_) => SinceClear(ops[..k], start) + 1
      case VerifyOp => SinceClear(ops[..k], start)
      case ClearOp(n) => if n.uid == 0 then 0 else SinceClear(ops[..k], start) + 1
  }

  lemma {:induction false} RunRepresents(mac: Mac, s: Log, tr: Trail, ops: seq<Op>)
    requires Represents(mac, s, tr) && TypedOps(ops)
    ensures Represents(mac, RunLog(mac, s, ops), RunTrail(mac, s, tr, ops))
    ensures |RunTrail(mac, s, tr, ops).events| == SinceClear(ops, |tr.events|)
    decreases |ops|
  {
    if ops != [] {
      var k := |ops| - 1;
      var before, trail := RunLog(mac, s, ops[..k]), RunTrail(mac, s, tr, ops[..k]);
      RunRepresents(mac, s, tr, ops[..k]);
      StepRepresents(mac, before, trail, ops[k]);
    }
  }

  lemma StepRepresents(mac: Mac, s: Log, tr: Trail, op: Op)
    requires Represents(mac, s, tr) && (op.VerifyOp? || TypedEntry(op.n))
    ensures op.LogOp? ==> Represents(mac, Logged(mac, s, op.n), Extended(mac, s, tr, op.n))
    ensures op.VerifyOp? ==> Represents(mac, Verified(mac, s), tr)
    ensures op.ClearOp? ==>
      Represents(mac, Cleared(mac, s, op.n),
                 if op.n.uid == 0 then Trail([], Logged(mac, s, op.n).next) else Extended(mac, s, tr, op.n))
  {
    match op
    case VerifyOp => VerifiedRepresents(mac, s, tr);
    case LogOp(n) => LoggedRepresents(mac, s, tr, n);
    case ClearOp(n) =>
      LoggedRepresents(mac, s, tr, n);
      hide Represents;
      if n.uid == 0 {
        WipedRepresents(mac, Logged(mac, s, n), Extended(mac, s, tr, n));
      }
  }

  lemma VerifiedRepresents(mac: Mac, s: Log, tr: Trail)
    requires Represents(mac, s, tr)
    ensures Represents(mac, Verified(mac, s), tr)
  {
    hide TrailOk, ChainOk;
    var s' := Verified(mac, s);
    assert s' == s.(stats := s.stats.(tampers := s'.stats.tampers));
    assert RingOk(s', tr);
  }

  /** Consecutive numbers from `first` on. */
  ghost predicate Numbered(events: seq<Event>, first: nat) {
    forall i :: 0 <= i < |events| ==> events[i].sequence == (first + i) % RANGE
  }

  /** The statistics name the two ends, and the last number is the one before the next. */
  predicate EndsTold(s: Log, events: seq<Event>) {
    events != [] ==>
      && s.stats.oldest == events[0].sequence
      && s.stats.newest == events[|events| - 1].sequence == (s.next + RANGE - 1) % RANGE
  }

  /** The ring holds the last min(n, 1000) of the n events of the trail, in order, with consecutive
      numbers, and the statistics say so. */
  ghost predicate Tells(s: Log, tr: Trail) {
    Shaped(s) &&
    var n, events := |tr.events|, Chronicle(s);
    && events == Survivors(tr) && |events| == Min(n, SIZE)
    && Numbered(events, tr.base + (n - Min(n, SIZE)))
    && (s.stats.inBuffer + s.stats.dropped) % RANGE == n % RANGE
    && s.stats.total == s.next
    && EndsTold(s, events)
  }

  /** After any run of logs, verifications and clears since init, n being the number of logs since the last clear. */
  lemma RingAfterRun(mac: Mac, ops: seq<Op>)
    requires TypedOps(ops)
    ensures var tr := RunTrail(mac, Fresh(), Trail([], 0), ops);
            Tells(RunLog(mac, Fresh(), ops), tr) && |tr.events| == SinceClear(ops, 0)
  {
    hide Represents, Tells, RunLog, RunTrail, SinceClear, Fresh;
    FreshRepresents(mac);
    RunRepresents(mac, Fresh(), Trail([], 0), ops);
    ReadRing(mac, RunLog(mac, Fresh(), ops), RunTrail(mac, Fresh(), Trail([], 0), ops));
  }

  lemma SurvivorsNumbered(mac: Mac, tr: Trail)
    requires TrailOk(mac, tr)
    ensures Numbered(Survivors(tr), tr.base + (|tr.events| - Min(|tr.events|, SIZE)))
  {
    hide Tag, Typed;
    var o := |tr.events| - Min(|tr.events|, SIZE);
    forall i | 0 <= i < |Survivors(tr)| ensures Survivors(tr)[i].sequence == (tr.base + o + i) % RANGE {
      assert EventOk(mac, tr, o + i);
    }
  }

  lemma SurvivorEnds(tr: Trail)
    requires tr.events != []
    ensures var n, kept := |tr.events|, Survivors(tr);
            kept != [] && kept[0] == tr.events[n - Min(n, SIZE)] && kept[|kept| - 1] == tr.events[n - 1]
  {
  }

  lemma LastNumber(mac: Mac, s: Log, tr: Trail)
    requires TrailOk(mac, tr) && tr.events != [] && s.next == (tr.base + |tr.events|) % RANGE
    ensures tr.events[|tr.events| - 1].sequence == (s.next + RANGE - 1) % RANGE
  {
    hide Tag, Typed;
    var x := tr.base + |tr.events| - 1;
    assert EventOk(mac, tr, |tr.events| - 1);
    StepBack(x);
  }

  lemma ReadEnds(mac: Mac, s: Log, tr: Trail)
    requires TrailOk(mac, tr) && EndStats(s, tr) && s.count == Min(|tr.events|, SIZE)
    requires s.next == (tr.base + |tr.events|) % RANGE
    ensures EndsTold(s, Survivors(tr))
  {
    hide TrailOk;
    if tr.events != [] {
      SurvivorEnds(tr);
      LastNumber(mac, s, tr);
      hide Survivors;
    }
  }

  lemma ReadBalance(s: Log, tr: Trail)
    requires CountersOk(s, tr) && StatsOk(s, tr)
    ensures (s.stats.inBuffer + s.stats.dropped) % RANGE == |tr.events| % RANGE && s.stats.total == s.next
  {
    PutBack(s.count, |tr.events|);
  }

  lemma ReadRing(mac: Mac, s: Log, tr: Trail)
    requires Represents(mac, s, tr)
    ensures Tells(s, tr)
  {
    hide Chronicle, TrailOk, RingOk, Shaped, Survivors, EndStats, Numbered, EndsTold;
    ChronicleIsTail(mac, s, tr);
    SurvivorsSize(tr);
    SurvivorsNumbered(mac, tr);
    ReadBalance(s, tr);
    ReadEnds(mac, s, tr);
  }

  lemma SurvivorsSize(tr: Trail)
    ensures |Survivors(tr)| == Min(|tr.events|, SIZE)
  {
  }

  lemma PutBack(count: nat, n: nat)
    requires count <= n
    ensures (count + (n - count) % RANGE) % RANGE == n % RANGE
  {
  }

  lemma StepBack(x: nat)
    ensures ((x + 1) % RANGE + RANGE - 1) % RANGE == x % RANGE
  {
  }
}
