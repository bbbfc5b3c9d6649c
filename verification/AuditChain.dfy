/** What the chain of MACs proves, and what a query returns. */
module AuditChain {
  import opened ByteStrings
  import opened Audit
  import opened AuditRuns

  // ---------------------------------------------------------------- verification of an untampered log

  lemma {:induction false} TailChains(mac: Mac, tr: Trail, i: nat)
    requires TrailOk(mac, tr) && i <= |tr.events|
    ensures ChainOk(mac, tr.events[i..], Before(tr.events, i))
    decreases |tr.events| - i
  {
    hide Tag;
    if i < |tr.events| {
      TailChains(mac, tr, i + 1);
      assert EventOk(mac, tr, i);
      assert tr.events[i..][1..] == tr.events[i + 1..];
    }
  }

  /** The oldest event that is still in the ring after an overwrite, checked against the zero tag that
      verification starts from. */
  predicate OldestMatchesZero(mac: Mac, tr: Trail)
    requires |tr.events| > SIZE
  {
    var e := tr.events[|tr.events| - SIZE];
    Tag(mac, ZERO_TAG, e) == e.hmac
  }

  lemma SurvivorsVerify(mac: Mac, tr: Trail)
    requires TrailOk(mac, tr)
    ensures ChainOk(mac, Survivors(tr), ZERO_TAG) <==> (|tr.events| <= SIZE || OldestMatchesZero(mac, tr))
  {
    hide TrailOk, Tag;
    var n := |tr.events|;
    if n <= SIZE {
      TailChains(mac, tr, 0);
      assert Survivors(tr) == tr.events[0..];
    } else {
      var o := n - SIZE;
      TailChains(mac, tr, o + 1);
      var kept := tr.events[o..];
      assert Survivors(tr) == kept && kept[0] == tr.events[o] && kept[1..] == tr.events[o + 1..];
    }
  }

  /** Exactly when verification accepts an untampered log: nothing has been overwritten, or the MAC of the
      oldest survivor happens to be the same under the zero tag as under the tag it was chained to. */
  lemma VerificationExact(mac: Mac, s: Log, tr: Trail)
    requires Represents(mac, s, tr)
    ensures ChainOk(mac, Chronicle(s), ZERO_TAG) <==> (|tr.events| <= SIZE || OldestMatchesZero(mac, tr))
  {
    hide Tag, Chronicle, ChainOk, TrailOk, Shaped, CountersOk, RingOk, StatsOk, Survivors, OldestMatchesZero;
    ChronicleIsTail(mac, s, tr);
    SurvivorsVerify(mac, tr);
  }

  /** The MAC does not produce the zero tag, and does not confuse two messages, on the messages of this trail. */
  ghost predicate MacHolds(mac: Mac, tr: Trail) {
    forall i :: 0 < i < |tr.events| ==> MacHoldsAt(mac, tr.events[i - 1].hmac, tr.events[i])
  }

  predicate MacHoldsAt(mac: Mac, prev: Bytes, e: Event) {
    && prev != ZERO_TAG
    && (Tag(mac, ZERO_TAG, e) == Tag(mac, prev, e) ==> Message(ZERO_TAG, e) == Message(prev, e))
  }

  /** Under such a MAC an untampered log verifies exactly when nothing was overwritten. */
  lemma AcceptedIffNothingLost(mac: Mac, s: Log, tr: Trail)
    requires Represents(mac, s, tr) && MacHolds(mac, tr)
    ensures ChainOk(mac, Chronicle(s), ZERO_TAG) <==> |tr.events| <= SIZE
  {
    hide Tag, Message, Chronicle, ChainOk, Shaped, CountersOk, RingOk, StatsOk;
    VerificationExact(mac, s, tr);
    if |tr.events| > SIZE {
      var o := |tr.events| - SIZE;
      var prev, e := tr.events[o - 1].hmac, tr.events[o];
      assert EventOk(mac, tr, o) && EventOk(mac, tr, o - 1) && MacHoldsAt(mac, prev, e);
      if OldestMatchesZero(mac, tr) {
        MessageInjective(ZERO_TAG, e, prev, e);
      }
    }
  }

  /** The same over every run since init: acceptance says that at most 1000 events came since the last
      clear. The buffer and the chaining value are left as they were. */
  lemma AcceptedAfterRun(mac: Mac, ops: seq<Op>)
    requires TypedOps(ops) && MacHolds(mac, RunTrail(mac, Fresh(), Trail([], 0), ops))
    ensures var s := RunLog(mac, Fresh(), ops);
            && (ChainOk(mac, Chronicle(s), ZERO_TAG) <==> SinceClear(ops, 0) <= SIZE)
            && Verified(mac, s).slots == s.slots && Verified(mac, s).prev == s.prev
            && (SinceClear(ops, 0) <= SIZE ==> Verified(mac, s) == s)
  {
    hide Represents, MacHolds, RunLog, RunTrail, SinceClear, Fresh, ChainOk, Chronicle;
    FreshRepresents(mac);
    RunRepresents(mac, Fresh(), Trail([], 0), ops);
    AcceptedIffNothingLost(mac, RunLog(mac, Fresh(), ops), RunTrail(mac, Fresh(), Trail([], 0), ops));
  }

  // ---------------------------------------------------------------- a log that does not verify

  /** A MAC whose tags start with one, followed by the start of the message. */
  function Marked(m: Bytes): Bytes {
    if |m| >= TAG - 1 then [1] + m[..TAG - 1] else [1]
  }

  lemma MarkedTag(prev: Bytes, e: Event)
    requires |prev| == TAG
    ensures Tag(Marked, prev, e) == [1] + prev[..TAG - 1]
  {
    hide LittleEndian;
    assert Message(prev, e)[..TAG - 1] == prev[..TAG - 1];
  }

  lemma MarkedHoldsAt(prev: Bytes, before: Bytes, e: Event)
    requires |before| == TAG && prev == [1] + before[..TAG - 1]
    ensures MacHoldsAt(Marked, prev, e)
  {
    hide Tag, Message;
    MarkedTag(ZERO_TAG, e);
    MarkedTag(prev, e);
    assert prev[0] == 1 && ZERO_TAG[0] == 0;
    assert ([1] + prev[..TAG - 1])[1] == 1 && ([1] + ZERO_TAG[..TAG - 1])[1] == 0;
  }

  /** This MAC is good on every trail. */
  lemma MarkedHolds(tr: Trail)
    requires TrailOk(Marked, tr)
    ensures MacHolds(Marked, tr)
  {
    hide Tag, Message, MacHoldsAt;
    forall i | 0 < i < |tr.events| ensures MacHoldsAt(Marked, tr.events[i - 1].hmac, tr.events[i]) {
      assert EventOk(Marked, tr, i - 1);
      assert i > 1 ==> EventOk(Marked, tr, i - 2);
      var before := Before(tr.events, i - 1);
      MarkedTag(before, tr.events[i - 1]);
      MarkedHoldsAt(tr.events[i - 1].hmac, before, tr.events[i]);
    }
  }

  /** Under it, every run with more than 1000 events since the last clear is rejected, though nobody touched
      the log. */
  lemma UntamperedRejected(ops: seq<Op>)
    requires TypedOps(ops) && SinceClear(ops, 0) > SIZE
    ensures !ChainOk(Marked, Chronicle(RunLog(Marked, Fresh(), ops)), ZERO_TAG)
  {
    hide Represents, MacHolds, RunLog, RunTrail, SinceClear, Fresh, ChainOk, Chronicle;
    var tr := RunTrail(Marked, Fresh(), Trail([], 0), ops);
    FreshRepresents(Marked);
    RunRepresents(Marked, Fresh(), Trail([], 0), ops);
    assert TrailOk(Marked, tr) by { OkOf(RunLog(Marked, Fresh(), ops), tr); }
    MarkedHolds(tr);
    AcceptedAfterRun(Marked, ops);
  }

  lemma OkOf(s: Log, tr: Trail)
    requires Represents(Marked, s, tr)
    ensures TrailOk(Marked, tr)
  {
  }

  /** Such a run is one call 1001 times over. */
  lemma {:induction false} LogsCount(n: nat, e: Entry)
    ensures SinceClear(seq(n, _ => LogOp(e)), 0) == n
  {
    if n > 0 {
      LogsCount(n - 1, e);
      assert seq(n, _ => LogOp(e))[..n - 1] == seq(n - 1, _ => LogOp(e));
    }
  }

  lemma RejectedExample(e: Entry)
    requires TypedEntry(e)
    ensures !ChainOk(Marked, Chronicle(RunLog(Marked, Fresh(), seq(SIZE + 1, _ => LogOp(e)))), ZERO_TAG)
  {
    hide RunLog, Fresh, ChainOk, Chronicle;
    LogsCount(SIZE + 1, e);
    UntamperedRejected(seq(SIZE + 1, _ => LogOp(e)));
  }

  // ---------------------------------------------------------------- binding

  /** The message whose MAC event i of a list carries. */
  function Msg(events: seq<Event>, i: nat): Bytes
    requires i < |events|
  {
    Message(Before(events, i), events[i])
  }

  ghost predicate Collision(mac: Mac, a: seq<Event>, b: seq<Event>) {
    exists i :: 0 <= i < |a| && i < |b| && Collides(mac, a, b, i)
  }

  /** Two different messages with one MAC. */
  predicate Collides(mac: Mac, a: seq<Event>, b: seq<Event>, i: nat)
    requires i < |a| && i < |b|
  {
    Msg(a, i) != Msg(b, i) && Tag(mac, Before(a, i), a[i]) == Tag(mac, Before(b, i), b[i])
  }

  ghost predicate AllTyped(events: seq<Event>) {
    forall i :: 0 <= i < |events| ==> Typed(events[i])
  }

  /** Verification checks every event against the tag before it. */
  lemma {:induction false} ChainGivesTags(mac: Mac, events: seq<Event>, from: nat, i: nat)
    requires from <= i < |events| && ChainOk(mac, events[from..], Before(events, from))
    ensures events[i].hmac == Tag(mac, Before(events, i), events[i])
    decreases i - from
  {
    hide Tag;
    assert events[from..][0] == events[from];
    if from < i {
      assert events[from..][1..] == events[from + 1..];
      ChainGivesTags(mac, events, from + 1, i);
    }
  }

  /** Two logs of one length that both verify and end in one MAC are the same log, or else they exhibit
      two different messages with the same MAC. */
  lemma {:induction false} ChainBinds(mac: Mac, a: seq<Event>, b: seq<Event>, n: nat)
    requires n <= |a| && |a| == |b| && AllTyped(a) && AllTyped(b)
    requires ChainOk(mac, a, ZERO_TAG) && ChainOk(mac, b, ZERO_TAG)
    requires Before(a, n) == Before(b, n)
    ensures a[..n] == b[..n] || Collision(mac, a, b)
  {
    hide Tag, Message, ChainOk;
    if n > 0 {
      var i := n - 1;
      assert a[0..] == a && b[0..] == b;
      ChainGivesTags(mac, a, 0, i);
      ChainGivesTags(mac, b, 0, i);
      if Msg(a, i) != Msg(b, i) {
        assert Collides(mac, a, b, i);
      } else {
        BeforeSized(a, i);
        BeforeSized(b, i);
        MessageInjective(Before(a, i), a[i], Before(b, i), b[i]);
        ChainBinds(mac, a, b, i);
        assert a[..n] == a[..i] + [a[i]] && b[..n] == b[..i] + [b[i]];
      }
    }
  }

  lemma BeforeSized(events: seq<Event>, i: nat)
    requires AllTyped(events) && i < |events|
    ensures |Before(events, i)| == TAG
  {
    assert i > 0 ==> Typed(events[i - 1]);
  }

  /** Two never-overwritten buffers that both verify and end in one MAC hold the same events. */
  lemma SameLastTagSameLog(mac: Mac, a: seq<Event>, b: seq<Event>)
    requires |a| == |b| > 0 && AllTyped(a) && AllTyped(b)
    requires ChainOk(mac, a, ZERO_TAG) && ChainOk(mac, b, ZERO_TAG)
    requires a[|a| - 1].hmac == b[|b| - 1].hmac && !Collision(mac, a, b)
    ensures a == b
  {
    hide ChainOk, Collision;
    ChainBinds(mac, a, b, |a|);
    assert a[..|a|] == a && b[..|b|] == b;
  }

  // ---------------------------------------------------------------- queries

  datatype Filter = Filter(kind: nat, minSeverity: nat, uid: nat, startTime: nat, endTime: nat)
  datatype MaybeFilter = NoFilter | Some(f: Filter)

  predicate Matches(m: MaybeFilter, e: Event) {
    m.NoFilter? ||
    var f := m.f;
    && (f.kind == 0 || e.kind == f.kind)
    && e.severity >= f.minSeverity
    && (f.uid == 0xFFFF || e.uid == f.uid)
    && (f.startTime == 0 || e.timestamp >= f.startTime)
    && (f.endTime == 0 || e.timestamp <= f.endTime)
  }

  /** The matching events of a list, in its order. */
  function Matching(m: MaybeFilter, events: seq<Event>): (r: seq<Event>)
    ensures |r| <= |events|
  {
    if events == [] then []
    else
      var n := |events| - 1;
      Matching(m, events[..n]) + (if Matches(m, events[n]) then [events[n]] else [])
  }

  lemma {:induction false} MatchingPrefix(m: MaybeFilter, events: seq<Event>, i: nat)
    requires i <= |events|
    ensures Matching(m, events[..i]) <= Matching(m, events)
    decreases |events|
  {
    if i < |events| {
      var n := |events| - 1;
      MatchingPrefix(m, events[..n], i);
      assert events[..n][..i] == events[..i];
    } else {
      assert events[..i] == events;
    }
  }

  /** What a query for at most `max` events returns. */
  function Answer(m: MaybeFilter, events: seq<Event>, max: nat): seq<Event> {
    Matching(m, events)[..Min(|Matching(m, events)|, max)]
  }

  lemma MatchingStep(m: MaybeFilter, events: seq<Event>, i: nat)
    requires i < |events|
    ensures Matching(m, events[..i + 1]) == Matching(m, events[..i]) +
      (if Matches(m, events[i]) then [events[i]] else [])
  {
    hide Matches;
    assert events[..i + 1][..i] == events[..i];
  }

  /** A search that has seen the whole list, or has found enough, has the answer. */
  lemma AnswerReached(m: MaybeFilter, events: seq<Event>, i: nat, max: nat, got: seq<Event>)
    requires i <= |events| && got == Matching(m, events[..i]) && |got| <= max
    requires i == |events| || |got| == max
    ensures got == Answer(m, events, max)
  {
    hide Matches;
    MatchingPrefix(m, events, i);
    assert events[..|events|] == events;
  }

  ghost predicate Increasing(events: seq<Event>) {
    forall i, j :: 0 <= i < j < |events| ==> events[i].sequence < events[j].sequence
  }

  /** A query selects exactly the matching events. */
  lemma {:induction false} MatchingMembers(m: MaybeFilter, events: seq<Event>, e: Event)
    ensures e in Matching(m, events) <==> e in events && Matches(m, e)
  {
    hide Matches;
    if events != [] {
      var n := |events| - 1;
      MatchingMembers(m, events[..n], e);
      assert events == events[..n] + [events[n]];
    }
  }

  lemma {:induction false} MatchingIncreasing(m: MaybeFilter, events: seq<Event>)
    requires Increasing(events)
    ensures Increasing(Matching(m, events))
  {
    hide Matches;
    if events != [] {
      var n := |events| - 1;
      MatchingIncreasing(m, events[..n]);
      var before := Matching(m, events[..n]);
      forall i | 0 <= i < |before| ensures before[i].sequence < events[n].sequence {
        MatchingMembers(m, events[..n], before[i]);
      }
    }
  }

  lemma NumbersIncrease(mac: Mac, tr: Trail)
    requires TrailOk(mac, tr) && tr.base + |tr.events| <= RANGE
    ensures Increasing(tr.events)
  {
    hide Tag, Typed;
    forall i, j | 0 <= i < j < |tr.events| ensures tr.events[i].sequence < tr.events[j].sequence {
      assert EventOk(mac, tr, i) && EventOk(mac, tr, j);
    }
  }

  lemma PartIncreases(events: seq<Event>, i: nat, j: nat)
    requires Increasing(events) && i <= j <= |events|
    ensures Increasing(events[i..j])
  {
  }

  lemma AnswerInOrder(m: MaybeFilter, events: seq<Event>, max: nat)
    requires Increasing(events)
    ensures Increasing(Answer(m, events, max))
  {
    MatchingIncreasing(m, events);
    hide Increasing, Matching;
    var all := Matching(m, events);
    var n := Min(|all|, max);
    assert all[0..n] == all[..n];
    PartIncreases(all, 0, n);
  }

  lemma SurvivorsIncrease(mac: Mac, tr: Trail)
    requires TrailOk(mac, tr) && tr.base + |tr.events| <= RANGE
    ensures Increasing(Survivors(tr))
  {
    NumbersIncrease(mac, tr);
    hide Increasing, TrailOk;
    var n := |tr.events|;
    var o := n - Min(n, SIZE);
    assert tr.events[o..n] == tr.events[o..];
    PartIncreases(tr.events, o, n);
  }

  /** Barring a wrap of the 32-bit number, an answer is in increasing number order, for every head
      position, fill level and filter. */
  lemma AnswerIncreasing(mac: Mac, s: Log, tr: Trail, m: MaybeFilter, max: nat)
    requires Represents(mac, s, tr) && tr.base + |tr.events| <= RANGE
    ensures Increasing(Answer(m, Chronicle(s), max))
  {
    hide Chronicle, TrailOk, Increasing, Answer, Survivors, Shaped, CountersOk, RingOk, StatsOk;
    ChronicleIsTail(mac, s, tr);
    SurvivorsIncrease(mac, tr);
    AnswerInOrder(m, Chronicle(s), max);
  }
}
