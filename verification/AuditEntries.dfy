/** Who did what: the log against the calls that were made, told from the calls alone. */
module AuditEntries {
  import opened ByteStrings
  import opened Audit
  import opened AuditRuns
  import opened AuditChain

  // ---------------------------------------------------------------- what is recorded

  /** The calls whose events the log should hold: logs and refused clears, since the last clear by root. */
  function EntriesOf(ops: seq<Op>): seq<Entry>
    decreases |ops|
  {
    if ops == [] then []
    else
      var k := |ops| - 1;
      match ops[k]
      case LogOp(n) => EntriesOf(ops[..k]) + [n]
      case VerifyOp => EntriesOf(ops[..k])
      case ClearOp(n) => if n.uid == 0 then [] else EntriesOf(ops[..k]) + [n]
  }

  /** The description holds the text up to its first NUL, its end, or the 95 bytes there is room for, and a NUL. */
  ghost predicate Describes(description: Bytes, text: Bytes) {
    exists n: nat ::
      && n < |description| == 96 && n <= |text|
      && description[..n] == text[..n] && description[n] == 0 && 0 !in text[..n]
      && (n == 95 || n == |text| || text[n] == 0)
  }

  /** The event says when, who, what, how grave, and with which words. */
  ghost predicate Records(e: Event, n: Entry) {
    && e.timestamp == n.timestamp && e.uid == n.uid && e.pid == n.pid && e.kind == n.kind && e.severity == n.severity
    && Describes(e.description, n.text)
  }

  lemma StoredDescribes(slot: Bytes, text: Bytes)
    requires |slot| == DESC
    ensures Describes(Stored(slot, text), text)
  {
    var n := TextLength(text, DESC - 1);
    var d := Stored(slot, text);
    assert d[..n] == text[..n] && d[n] == 0;
  }

  lemma NewEventRecords(mac: Mac, s: Log, n: Entry)
    requires Shaped(s) && TypedEntry(n)
    ensures Records(NewEvent(mac, s, n), n)
  {
    hide Tag, Stored, Describes;
    StoredDescribes(s.slots[s.head].description, n.text);
  }

  ghost predicate AllRecorded(events: seq<Event>, entries: seq<Entry>) {
    |events| == |entries| && forall i :: 0 <= i < |events| ==> Records(events[i], entries[i])
  }

  lemma OneMoreRecorded(events: seq<Event>, entries: seq<Entry>, e: Event, n: Entry)
    requires AllRecorded(events, entries) && Records(e, n)
    ensures AllRecorded(events + [e], entries + [n])
  {
    hide Records;
  }

  /** The list behind the log records the calls, one by one. */
  lemma {:induction false} TrailRecords(mac: Mac, ops: seq<Op>)
    requires TypedOps(ops)
    ensures AllRecorded(RunTrail(mac, Fresh(), Trail([], 0), ops).events, EntriesOf(ops))
    decreases |ops|
  {
    hide Records, Logged, NewEvent, Fresh, AllRecorded;
    if ops == [] {
      NothingRecorded();
    } else {
      var k := |ops| - 1;
      TrailRecords(mac, ops[..k]);
      if ops[k].VerifyOp? {
      } else if ops[k].ClearOp? && ops[k].n.uid == 0 {
        NothingRecorded();
      } else {
        var before, trail := RunLog(mac, Fresh(), ops[..k]), RunTrail(mac, Fresh(), Trail([], 0), ops[..k]);
        NewEventRecords(mac, before, ops[k].n);
        OneMoreRecorded(trail.events, EntriesOf(ops[..k]), NewEvent(mac, before, ops[k].n), ops[k].n);
      }
    }
  }

  lemma NothingRecorded()
    ensures AllRecorded([], [])
  {
  }

  /** Over every run, the ring read from its start records the last min(n, 1000) of the n calls since the last
      clear by root, in their order. */
  lemma LogTellsCalls(mac: Mac, ops: seq<Op>)
    requires TypedOps(ops)
    ensures var entries := EntriesOf(ops);
            AllRecorded(Chronicle(RunLog(mac, Fresh(), ops)), entries[|entries| - Min(|entries|, SIZE)..])
  {
    hide Records, Represents, RunLog, RunTrail, Fresh, EntriesOf, Chronicle;
    var s, tr := RunLog(mac, Fresh(), ops), RunTrail(mac, Fresh(), Trail([], 0), ops);
    FreshRepresents(mac);
    RunRepresents(mac, Fresh(), Trail([], 0), ops);
    ChronicleIsTail(mac, s, tr);
    TrailRecords(mac, ops);
  }

  // ---------------------------------------------------------------- tampering

  /** How many verifications of a run refused the log. */
  function Refusals(mac: Mac, ops: seq<Op>): nat
    requires TypedOps(ops)
    decreases |ops|
  {
    if ops == [] then 0
    else
      var k := |ops| - 1;
      var s := RunLog(mac, Fresh(), ops[..k]);
      Refusals(mac, ops[..k]) + if ops[k].VerifyOp? && !ChainOk(mac, Chronicle(s), ZERO_TAG) then 1 else 0
  }

  /** Over every run the statistics count exactly the refused verifications; nothing resets the count. */
  lemma {:induction false} TampersCount(mac: Mac, ops: seq<Op>)
    requires TypedOps(ops)
    ensures RunLog(mac, Fresh(), ops).stats.tampers == Refusals(mac, ops) % RANGE
    decreases |ops|
  {
    hide ChainOk, Chronicle, NewEvent, Shaped;
    if ops != [] {
      var k := |ops| - 1;
      TampersCount(mac, ops[..k]);
      NextNumber(Refusals(mac, ops[..k]));
    }
  }

  // ---------------------------------------------------------------- queries

  /** What a filter asks for, of the call; kind 0, user 0xFFFF and time 0 ask for nothing. */
  predicate Wanted(f: Filter, n: Entry) {
    && f.kind in {0, n.kind} && f.uid in {0xFFFF, n.uid} && f.minSeverity <= n.severity
    && f.startTime <= n.timestamp && (f.endTime != 0 ==> n.timestamp <= f.endTime)
  }

  lemma MatchesWanted(e: Event, n: Entry, f: Filter)
    requires Records(e, n)
    ensures Matches(Some(f), e) <==> Wanted(f, n)
  {
  }

  lemma TailAt(entries: seq<Entry>, k: nat, i: nat)
    requires i < k <= |entries|
    ensures entries[|entries| - k..][i] == entries[|entries| - k + i]
  {
  }

  /** Over every run, a query finds an event of the buffer exactly when the filter asks for the call it records. */
  lemma QueryFinds(mac: Mac, ops: seq<Op>, f: Filter, i: nat)
    requires TypedOps(ops) && i < |Chronicle(RunLog(mac, Fresh(), ops))|
    ensures var events, entries := Chronicle(RunLog(mac, Fresh(), ops)), EntriesOf(ops);
            && |events| <= |entries|
            && (events[i] in Matching(Some(f), events) <==> Wanted(f, entries[|entries| - |events| + i]))
  {
    hide RunLog, Fresh, EntriesOf, Chronicle, Records, Matching, Matches, Wanted;
    var events, entries := Chronicle(RunLog(mac, Fresh(), ops)), EntriesOf(ops);
    LogTellsCalls(mac, ops);
    TailAt(entries, |events|, i);
    MatchingMembers(Some(f), events, events[i]);
    MatchesWanted(events[i], entries[|entries| - |events| + i], f);
  }

  // ---------------------------------------------------------------- the bytes under the MAC

  /** Where each field stands in the 180 bytes that are authenticated. */
  lemma MessageLayout(prev: Bytes, e: Event)
    requires |prev| == TAG && |e.description| == DESC
    ensures var m := Message(prev, e);
            && |m| == 180 && m[..64] == prev && m[64..68] == LittleEndian(e.timestamp, 4)
            && m[68..72] == LittleEndian(e.sequence, 4) && m[72..74] == LittleEndian(e.uid, 2)
            && m[74..76] == LittleEndian(e.pid, 2) && m[76..80] == LittleEndian(e.kind, 4)
            && m[80..84] == LittleEndian(e.severity, 4) && m[84..] == e.description
  {
    hide LittleEndian;
  }
}
