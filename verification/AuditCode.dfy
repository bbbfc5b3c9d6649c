/** The audit log as the kernel keeps it: a static ring that every call updates in place. */
module AuditCode {
  import opened ByteStrings
  import opened Critical
  import opened Cpus
  import opened Audit
  import opened AuditRuns
  import opened AuditChain
  import Hmac
  import Sha512

  /** The MAC under a key. */
  function KeyedMac(f: Sha512.Compression, key: Bytes): Mac {
    m => Hmac.Mac(f, key, m)
  }

  lemma OrZero(d: bv8, x: bv8, y: bv8)
    ensures d | (x ^ y) == 0 <==> d == 0 && x == y
  {
  }

  /** `crypto_constant_time_compare`. */
  method ConstantTimeCompare(a: Bytes, b: Bytes) returns (same: bool)
    requires |a| == |b|
    ensures same <==> a == b
  {
    var diff: bv8 := 0;
    var i := 0;
    while i < |a|
      invariant i <= |a|
      invariant diff == 0 <==> a[..i] == b[..i]
    {
      OrZero(diff, a[i], b[i]);
      assert a[..i + 1] == a[..i] + [a[i]] && b[..i + 1] == b[..i] + [b[i]];
      diff := diff | (a[i] ^ b[i]);
      i := i + 1;
    }
    assert a[..i] == a && b[..i] == b;
    same := diff == 0;
  }

  /** `safe_strcpy` into a description field. */
  method CopyText(field: Bytes, text: Bytes) returns (r: Bytes)
    requires |field| == DESC
    ensures r == Stored(field, text)
  {
    r := field;
    ghost var n := TextLength(text, DESC - 1);
    var i := 0;
    while i < DESC - 1 && i < |text| && text[i] != 0
      invariant i <= n && |r| == DESC
      invariant forall k :: 0 <= k < i ==> r[k] == text[k]
      invariant forall k :: i <= k < DESC ==> r[k] == field[k]
    {
      r := r[i := text[i]];
      i := i + 1;
    }
    assert i == n;
    r := r[i := 0];
    assert forall k :: 0 <= k < DESC ==> r[k] == Stored(field, text)[k];
  }

  lemma MessageInOrder(prev: Bytes, e: Event)
    ensures [] + prev + LittleEndian(e.timestamp, 4) + LittleEndian(e.sequence, 4) + LittleEndian(e.uid, 2)
            + LittleEndian(e.pid, 2) + LittleEndian(e.kind, 4) + LittleEndian(e.severity, 4) + e.description
         == Message(prev, e)
  {
    hide LittleEndian;
  }

  /** The counters and statistics after one more event. */
  function Advanced(s: Log, newest: nat): Log
    requires |s.slots| == SIZE && s.head < SIZE
  {
    var head := (s.head + 1) % SIZE;
    var count := if s.count < SIZE then s.count + 1 else s.count;
    s.(head := head, count := count,
       stats := Stats((s.stats.total + 1) % RANGE, count,
                      if s.count < SIZE then s.stats.dropped else (s.stats.dropped + 1) % RANGE,
                      s.stats.tampers,
                      if count == SIZE then s.slots[head].sequence else s.slots[0].sequence, newest))
  }

  /** The event in the slot at the head, and the chain moved on. */
  function Written(s: Log, e: Event): (s': Log)
    requires s.head < |s.slots|
    ensures |s'.slots| == |s.slots| && s'.head == s.head && s'.count == s.count
  {
    s.(slots := s.slots[s.head := e], next := (s.next + 1) % RANGE, prev := e.hmac)
  }

  lemma LoggedIs(mac: Mac, s: Log, n: Entry)
    requires Shaped(s) && TypedEntry(n)
    ensures var e := NewEvent(mac, s, n);
            e.sequence == s.next && Logged(mac, s, n) == Advanced(Written(s, e), e.sequence)
  {
    hide Tag, Stored;
  }

  class AuditLog {
    const cpu: Cpu
    const f: Sha512.Compression
    const buffer: array<Event>
    var key: Bytes
    var head: nat
    var count: nat
    var sequence: nat
    var prev: Bytes
    var stats: Stats
    var initialized: bool

    ghost predicate Valid()
      reads this, buffer
    {
      buffer.Length == SIZE && |key| == 32 && Shaped(State())
    }

    ghost function State(): Log
      reads this, buffer
    {
      Log(buffer[..], head, count, sequence, prev, stats)
    }

    /** The MAC of this boot. */
    ghost function Keyed(): Mac
      reads this
    {
      KeyedMac(f, key)
    }

    constructor (cpu: Cpu, f: Sha512.Compression)
      ensures Valid() && !initialized && State() == Fresh() && fresh(buffer)
      ensures this.cpu == cpu && this.f == f
    {
      this.cpu, this.f := cpu, f;
      buffer := new Event[SIZE](_ => EMPTY);
      key, prev := Repeat(0, 32), ZERO_TAG;
      head, count, sequence, initialized := 0, 0, 0, false;
      stats := Stats(0, 0, 0, 0, 0, 0);
    }

    /** `audit_compute_hmac`. */
    method ComputeHmac(e: Event) returns (tag: Bytes)
      requires Valid() && |e.description| == DESC
      ensures tag == Tag(Keyed(), prev, e)
    {
      hide LittleEndian, Hmac.Mac;
      var ctx := new Hmac.Context(f, key);
      ctx.Update(prev);
      ctx.Update(LittleEndian(e.timestamp, 4));
      ctx.Update(LittleEndian(e.sequence, 4));
      ctx.Update(LittleEndian(e.uid, 2));
      ctx.Update(LittleEndian(e.pid, 2));
      ctx.Update(LittleEndian(e.kind, 4));
      ctx.Update(LittleEndian(e.severity, 4));
      ctx.Update(e.description);
      MessageInOrder(prev, e);
      tag := ctx.Final();
    }

    /** `audit_init`, with the key drawn from the generator. */
    method Init(key: Bytes, boot: Entry)
      requires Valid() && |key| == 32 && TypedEntry(boot) && Consistent(cpu.State()) && cpu.depth < UINT32_MAX
      modifies this, buffer, cpu
      ensures Valid() && initialized && this.key == key
      ensures State() == Logged(Keyed(), Fresh(), boot) && Balanced(old(cpu.State()), cpu.State())
    {
      this.key := key;
      prev := ZERO_TAG;
      forall i | 0 <= i < SIZE {
        buffer[i] := EMPTY;
      }
      head, count, sequence := 0, 0, 0;
      stats := Stats(0, 0, 0, 0, 0, 0);
      initialized := true;
      assert State() == Fresh();
      LogRaw(boot);
    }

    /** `audit_log_raw`. */
    method LogRaw(n: Entry)
      requires Valid() && TypedEntry(n) && Consistent(cpu.State()) && cpu.depth < UINT32_MAX
      modifies this, buffer, cpu
      ensures Valid() && key == old(key) && initialized == old(initialized)
      ensures State() == if initialized then Logged(Keyed(), old(State()), n) else old(State())
      ensures if initialized then Balanced(old(cpu.State()), cpu.State()) else cpu.State() == old(cpu.State())
    {
      hide Logged, Shaped, KeyedMac;
      if !initialized {
        return;
      }
      EnterExitBalances(cpu.State());
      cpu.CriticalSectionEnter();
      Append(n);
      cpu.CriticalSectionExit();
    }

    /** Fills in the event for the next slot. */
    method Compose(n: Entry) returns (event: Event)
      requires Valid() && TypedEntry(n)
      ensures event == NewEvent(Keyed(), State(), n)
    {
      hide Tag, Stored, KeyedMac;
      assert Typed(buffer[head]) by { assert buffer[head] == State().slots[head]; }
      var text := CopyText(buffer[head].description, n.text);
      event := Event(n.timestamp, sequence, n.uid, n.pid, n.kind, n.severity, text, buffer[head].hmac);
      var tag := ComputeHmac(event);
      TagIgnoresOwn(Keyed(), prev, event);
      event := event.(hmac := tag);
    }

    /** Writes the event into the slot at the head and makes it the end of the chain. */
    method Write(event: Event)
      requires buffer.Length == SIZE && head < SIZE
      modifies buffer, `sequence, `prev
      ensures State() == Written(old(State()), event)
    {
      buffer[head] := event;
      sequence := (sequence + 1) % RANGE;
      prev := event.hmac;
    }

    /** Moves the head and brings the counters and statistics up to date. */
    method Advance(newest: nat)
      requires buffer.Length == SIZE && head < SIZE && count <= SIZE
      modifies `head, `count, `stats
      ensures State() == Advanced(old(State()), newest)
    {
      head := (head + 1) % SIZE;
      if count < SIZE {
        count := count + 1;
      } else {
        stats := stats.(dropped := (stats.dropped + 1) % RANGE);
      }
      stats := stats.(total := (stats.total + 1) % RANGE, inBuffer := count, newest := newest);
      if count == SIZE {
        stats := stats.(oldest := buffer[head].sequence);
      } else {
        stats := stats.(oldest := buffer[0].sequence);
      }
    }

    /** The part of a log call that the critical section guards. */
    method Append(n: Entry)
      requires Valid() && TypedEntry(n)
      modifies this, buffer
      ensures Valid() && key == old(key) && initialized == old(initialized)
      ensures State() == Logged(Keyed(), old(State()), n)
    {
      var event := Compose(n);
      LoggedIs(Keyed(), State(), n);
      assert Shaped(Logged(Keyed(), State(), n)) && head < SIZE && count <= SIZE;
      hide Logged, NewEvent, Shaped, KeyedMac, Advanced, Written, TypedEntry;
      WriteAndAdvance(event);
    }

    method WriteAndAdvance(event: Event)
      requires buffer.Length == SIZE && head < SIZE && count <= SIZE
      modifies buffer, `sequence, `prev, `head, `count, `stats
      ensures State() == Advanced(Written(old(State()), event), event.sequence)
    {
      hide Advanced, Written;
      Write(event);
      Advance(event.sequence);
    }

    /** `audit_query`. */
    method Query(filter: MaybeFilter, results: array?<Event>, max: int) returns (found: nat)
      requires Valid() && results != buffer && (results != null ==> max <= results.Length)
      requires Consistent(cpu.State()) && cpu.depth < UINT32_MAX
      modifies results, cpu
      ensures !initialized || results == null || max <= 0 ==>
        found == 0 && cpu.State() == old(cpu.State()) && (results != null ==> results[..] == old(results[..]))
      ensures initialized && results != null && max > 0 ==>
        && found <= results.Length
        && results[..found] == Answer(filter, Chronicle(State()), max)
        && results[found..] == old(results[found..])
        && Balanced(old(cpu.State()), cpu.State())
    {
      hide Answer, Chronicle, Shaped;
      found := 0;
      if !initialized || results == null || max <= 0 {
        return;
      }
      EnterExitBalances(cpu.State());
      cpu.CriticalSectionEnter();
      found := Collect(filter, results, max);
      cpu.CriticalSectionExit();
    }

    /** The filter tests of a query, one after the other. */
    static method Applies(filter: MaybeFilter, event: Event) returns (ok: bool)
      ensures ok == Matches(filter, event)
    {
      ok := true;
      if filter.Some? {
        var f := filter.f;
        if f.kind != 0 && event.kind != f.kind {
          ok := false;
        }
        if event.severity < f.minSeverity {
          ok := false;
        }
        if f.uid != 0xFFFF && event.uid != f.uid {
          ok := false;
        }
        if f.startTime != 0 && event.timestamp < f.startTime {
          ok := false;
        }
        if f.endTime != 0 && event.timestamp > f.endTime {
          ok := false;
        }
      }
    }

    /** One more result of a query. */
    static method Put(results: array<Event>, found: nat, event: Event)
      requires found < results.Length
      modifies results
      ensures results[..found + 1] == old(results[..found]) + [event]
      ensures forall j :: found < j < results.Length ==> results[j] == old(results[j])
    {
      results[found] := event;
    }

    /** The loop of a query. */
    method Collect(filter: MaybeFilter, results: array<Event>, max: nat) returns (found: nat)
      requires Valid() && results != buffer && max <= results.Length
      modifies results
      ensures found <= results.Length && results[..found] == Answer(filter, Chronicle(State()), max)
      ensures results[found..] == old(results[found..])
    {
      hide Matches, Matching, Answer, Chronicle, Shaped;
      found := 0;
      var start := if count < SIZE then 0 else head;
      ghost var events := Chronicle(State());
      var i := 0;
      while i < count && found < max
        invariant i <= count && found <= max
        invariant results[..found] == Matching(filter, events[..i])
        invariant forall j :: found <= j < results.Length ==> results[j] == old(results[j])
        invariant events == Chronicle(State())
      {
        SlotIs(i);
        var event := buffer[(start + i) % SIZE];
        MatchingStep(filter, events, i);
        var applies := Applies(filter, event);
        if applies {
          Put(results, found, event);
          found := found + 1;
        }
        i := i + 1;
      }
      AnswerReached(filter, events, i, max, results[..found]);
    }

    /** Where the i-th oldest event is. */
    lemma SlotIs(i: nat)
      requires Valid() && i < count
      ensures buffer[((if count < SIZE then 0 else head) + i) % SIZE] == Chronicle(State())[i]
    {
      var k := (StartIndex(State()) + i) % SIZE;
      assert State().slots[k] == buffer[k];
      assert Chronicle(State())[i] == State().slots[k];
    }

    /** `audit_verify_integrity`. */
    method VerifyIntegrity() returns (valid: bool)
      requires Valid() && Consistent(cpu.State()) && cpu.depth < UINT32_MAX
      modifies this, cpu
      ensures Valid() && key == old(key) && initialized == old(initialized)
      ensures valid == (initialized && ChainOk(Keyed(), Chronicle(old(State())), ZERO_TAG))
      ensures State() == if initialized then Verified(Keyed(), old(State())) else old(State())
      ensures if initialized then Balanced(old(cpu.State()), cpu.State()) else cpu.State() == old(cpu.State())
    {
      hide ChainOk, Chronicle, Verified, Shaped, KeyedMac;
      if !initialized {
        return false;
      }
      EnterExitBalances(cpu.State());
      cpu.CriticalSectionEnter();
      ghost var events := Chronicle(State());
      valid := WalkChain(events);
      cpu.CriticalSectionExit();
    }

    /** The loop of the verification: the chaining value is set and put back around each recomputation. */
    method WalkChain(ghost events: seq<Event>) returns (valid: bool)
      requires Valid() && events == Chronicle(State())
      modifies `prev, `stats
      ensures Valid() && valid == ChainOk(Keyed(), events, ZERO_TAG)
      ensures State() == Verified(Keyed(), old(State()))
    {
      hide Tag, StartIndex, Chronicle;
      valid := true;
      var chain := ZERO_TAG;
      var start := if count < SIZE then 0 else head;
      var i := 0;
      while i < count
        invariant i <= count && prev == old(prev) && stats == old(stats) && |chain| == TAG
        invariant events == Chronicle(State())
        invariant ChainOk(Keyed(), events, ZERO_TAG) == ChainOk(Keyed(), events[i..], chain)
      {
        SlotIs(i);
        var event := buffer[(start + i) % SIZE];
        assert events[i..][0] == event && events[i..][1..] == events[i + 1..];
        var saved := prev;
        prev := chain;
        var computed := ComputeHmac(event);
        prev := saved;
        var same := ConstantTimeCompare(computed, event.hmac);
        if !same {
          valid := false;
          stats := stats.(tampers := (stats.tampers + 1) % RANGE);
          return;
        }
        chain := event.hmac;
        i := i + 1;
      }
    }

    /** `audit_clear`: -1 for anyone but root. */
    method Clear(n: Entry) returns (result: int)
      requires Valid() && TypedEntry(n) && Consistent(cpu.State()) && cpu.depth < UINT32_MAX
      modifies this, buffer, cpu
      ensures Valid() && key == old(key) && initialized == old(initialized)
      ensures result == if n.uid == 0 then 0 else -1
      ensures initialized ==> State() == Cleared(Keyed(), old(State()), n)
      ensures !initialized ==> State() == if n.uid == 0 then Wiped(old(State())) else old(State())
      ensures initialized || n.uid == 0 ==> Balanced(old(cpu.State()), cpu.State())
    {
      hide Logged, KeyedMac;
      LogRaw(n);
      if n.uid != 0 {
        return -1;
      }
      EnterExitBalances(cpu.State());
      cpu.CriticalSectionEnter();
      forall i | 0 <= i < SIZE {
        buffer[i] := EMPTY;
      }
      head, count := 0, 0;
      prev := ZERO_TAG;
      stats := stats.(inBuffer := 0, dropped := 0);
      cpu.CriticalSectionExit();
      result := 0;
    }
  }
}
