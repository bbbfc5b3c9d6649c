/**
 The audit log: a ring of 1000 event slots with sequence numbers, statistics and a chain of MACs,
 as a state machine over values, and the plain list of events that it stands for.
 */
module Audit {
  import opened ByteStrings

  const SIZE: nat := 1000
  const DESC: nat := 96
  const TAG: nat := 64
  const RANGE: nat := 0x1_0000_0000

  datatype Event = Event(
    timestamp: nat, sequence: nat, uid: nat, pid: nat, kind: nat, severity: nat,
    description: Bytes, hmac: Bytes)

  /** The C field widths. */
  predicate Typed(e: Event) {
    && e.timestamp < RANGE && e.sequence < RANGE && e.uid < 0x1_0000 && e.pid < 0x1_0000
    && e.kind < RANGE && e.severity < RANGE && |e.description| == DESC && |e.hmac| == TAG
  }

  const ZERO_TAG: Bytes := Repeat(0, TAG)
  const EMPTY := Event(0, 0, 0, 0, 0, 0, Repeat(0, DESC), ZERO_TAG)

  datatype Stats = Stats(total: nat, inBuffer: nat, dropped: nat, tampers: nat, oldest: nat, newest: nat)

  datatype Log = Log(slots: seq<Event>, head: nat, count: nat, next: nat, prev: Bytes, stats: Stats)

  /** What a call contributes: the clock, the caller and the text. */
  datatype Entry = Entry(timestamp: nat, uid: nat, pid: nat, kind: nat, severity: nat, text: Bytes)

  predicate TypedEntry(n: Entry) {
    && n.timestamp < RANGE && n.uid < 0x1_0000 && n.pid < 0x1_0000 && n.kind < RANGE && n.severity < RANGE
  }

  // ---------------------------------------------------------------- the MAC of an event

  /** The bytes that `audit_compute_hmac` feeds to the MAC, in order. */
  function Message(prev: Bytes, e: Event): Bytes {
    prev + (LittleEndian(e.timestamp, 4) + (LittleEndian(e.sequence, 4) + (LittleEndian(e.uid, 2) +
      (LittleEndian(e.pid, 2) + (LittleEndian(e.kind, 4) + (LittleEndian(e.severity, 4) + e.description))))))
  }

  /** The MAC under the key of this boot, as a function of the message. */
  type Mac = Bytes -> Bytes

  function Tag(mac: Mac, prev: Bytes, e: Event): (r: Bytes)
    ensures |r| == TAG
  {
    var r := mac(Message(prev, e));
    if |r| >= TAG then r[..TAG] else r + Repeat(0, TAG - |r|)
  }

  lemma SplitEqual(a: Bytes, b: Bytes, x: Bytes, y: Bytes)
    requires |a| == |b| && a + x == b + y
    ensures a == b && x == y
  {
    assert a == (a + x)[..|a|] && b == (b + y)[..|b|];
    assert x == (a + x)[|a|..] && y == (b + y)[|b|..];
  }

  lemma NumberThenRest(x: nat, y: nat, n: nat, p: Bytes, q: Bytes)
    requires x < Power256(n) && y < Power256(n)
    requires LittleEndian(x, n) + p == LittleEndian(y, n) + q
    ensures x == y && p == q
  {
    SplitEqual(LittleEndian(x, n), LittleEndian(y, n), p, q);
    LittleEndianInjective(x, y, n);
  }

  lemma Widths()
    ensures Power256(2) == 0x1_0000 && Power256(4) == RANGE
  {
  }

  /** The message determines the previous tag and everything in the event but its own tag. */
  lemma MessageInjective(prev: Bytes, e: Event, prev': Bytes, e': Event)
    requires |prev| == |prev'| && Typed(e) && Typed(e')
    requires Message(prev, e) == Message(prev', e')
    ensures prev == prev' && e.(hmac := e'.hmac) == e'
  {
    hide LittleEndian, Power256;
    Widths();
    var d, d' := e.description, e'.description;
    var s, s' := LittleEndian(e.severity, 4) + d, LittleEndian(e'.severity, 4) + d';
    var k, k' := LittleEndian(e.kind, 4) + s, LittleEndian(e'.kind, 4) + s';
    var p, p' := LittleEndian(e.pid, 2) + k, LittleEndian(e'.pid, 2) + k';
    var u, u' := LittleEndian(e.uid, 2) + p, LittleEndian(e'.uid, 2) + p';
    var q, q' := LittleEndian(e.sequence, 4) + u, LittleEndian(e'.sequence, 4) + u';
    var t, t' := LittleEndian(e.timestamp, 4) + q, LittleEndian(e'.timestamp, 4) + q';
    SplitEqual(prev, prev', t, t');
    NumberThenRest(e.timestamp, e'.timestamp, 4, q, q');
    NumberThenRest(e.sequence, e'.sequence, 4, u, u');
    NumberThenRest(e.uid, e'.uid, 2, p, p');
    NumberThenRest(e.pid, e'.pid, 2, k, k');
    NumberThenRest(e.kind, e'.kind, 4, s, s');
    NumberThenRest(e.severity, e'.severity, 4, d, d');
  }

  // ---------------------------------------------------------------- steps

  /** `safe_strcpy` into a description field: the text up to its first NUL and at most 95 bytes, a NUL,
      and behind it whatever the slot held before. */
  function Stored(slot: Bytes, text: Bytes): (r: Bytes)
    requires |slot| == DESC
    ensures |r| == DESC
  {
    var n := TextLength(text, DESC - 1);
    text[..n] + [0] + slot[n + 1..]
  }

  /** How many bytes come before the first NUL, the end, or the limit. */
  function TextLength(text: Bytes, limit: nat): (n: nat)
    ensures n <= limit && n <= |text|
    ensures forall i :: 0 <= i < n ==> text[i] != 0
    ensures n == limit || n == |text| || text[n] == 0
  {
    if limit == 0 || text == [] || text[0] == 0 then 0 else 1 + TextLength(text[1..], limit - 1)
  }

  predicate Shaped(s: Log) {
    && |s.slots| == SIZE && s.head < SIZE && s.count <= SIZE && s.next < RANGE && |s.prev| == TAG
    && (forall i :: 0 <= i < SIZE ==> Typed(s.slots[i]))
  }

  /** The event that a call writes into the next slot. */
  function NewEvent(mac: Mac, s: Log, n: Entry): (e: Event)
    requires Shaped(s) && TypedEntry(n)
    ensures Typed(e)
  {
    var e := Event(n.timestamp, s.next, n.uid, n.pid, n.kind, n.severity,
                   Stored(s.slots[s.head].description, n.text), ZERO_TAG);
    e.(hmac := Tag(mac, s.prev, e))
  }

  /** `audit_log_raw` on an initialized log. */
  function Logged(mac: Mac, s: Log, n: Entry): (s': Log)
    requires Shaped(s) && TypedEntry(n)
    ensures Shaped(s')
  {
    var e := NewEvent(mac, s, n);
    var slots := s.slots[s.head := e];
    var head := (s.head + 1) % SIZE;
    var count := if s.count < SIZE then s.count + 1 else s.count;
    Log(slots, head, count, (s.next + 1) % RANGE, e.hmac,
        Stats((s.stats.total + 1) % RANGE, count,
              if s.count < SIZE then s.stats.dropped else (s.stats.dropped + 1) % RANGE,
              s.stats.tampers,
              if count == SIZE then slots[head].sequence else slots[0].sequence,
              e.sequence))
  }

  /** `audit_init` before its boot event. */
  function Fresh(): (s: Log)
    ensures Shaped(s)
  {
    Log(seq(SIZE, _ => EMPTY), 0, 0, 0, ZERO_TAG, Stats(0, 0, 0, 0, 0, 0))
  }

  /** The clearing part of `audit_clear`: sequence numbers and total go on. */
  function Wiped(s: Log): (s': Log)
    requires Shaped(s)
    ensures Shaped(s')
  {
    Log(seq(SIZE, _ => EMPTY), 0, 0, s.next, ZERO_TAG, s.stats.(inBuffer := 0, dropped := 0))
  }

  /** `audit_clear`: the attempt is logged first, and only root goes on to clear. */
  function Cleared(mac: Mac, s: Log, n: Entry): (s': Log)
    requires Shaped(s) && TypedEntry(n)
    ensures Shaped(s')
  {
    if n.uid == 0 then Wiped(Logged(mac, s, n)) else Logged(mac, s, n)
  }

  /** Where the oldest event is. */
  function StartIndex(s: Log): nat {
    if s.count < SIZE then 0 else s.head
  }

  /** The ring read from its start index. */
  function Chronicle(s: Log): (r: seq<Event>)
    requires Shaped(s)
    ensures |r| == s.count
  {
    seq(s.count, i requires 0 <= i < s.count => s.slots[(StartIndex(s) + i) % SIZE])
  }

  /** The chain check, from a starting tag. */
  predicate ChainOk(mac: Mac, events: seq<Event>, chain: Bytes)
    decreases |events|
  {
    events == [] || (Tag(mac, chain, events[0]) == events[0].hmac && ChainOk(mac, events[1..], events[0].hmac))
  }

  /** `audit_verify_integrity`: only the tamper count can change. */
  function Verified(mac: Mac, s: Log): (s': Log)
    requires Shaped(s)
    ensures Shaped(s')
  {
    if ChainOk(mac, Chronicle(s), ZERO_TAG) then s
    else s.(stats := s.stats.(tampers := (s.stats.tampers + 1) % RANGE))
  }
}
