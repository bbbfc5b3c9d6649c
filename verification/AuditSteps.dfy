/**
 The audit log as its critical sections see it: each access to the chaining word, the number and the ring is
 a step of its own. Tags are named by the event they belong to: 0 is the zero tag and i + 1 is the tag of
 event i since the last clear, so two events have one tag only if they are the same event.
 */
module AuditSteps {
  import Audit

  /** An event: its number, and the tag it was chained to. */
  datatype Ev = Ev(num: nat, chained: nat)

  /** A finished verification: its answer, and how many events had been overwritten by then. */
  datatype Verdict = Verdict(ok: bool, lost: nat)

  /** The chaining word, the next number, the events since the last clear with the number of the first, how
      many of them the ring has overwritten, and the finished verifications. */
  datatype Trail = Trail(word: nat, next: nat, base: nat, events: seq<Ev>, lost: nat, verdicts: seq<Verdict>)

  datatype Job = Logging | Verifying | Clearing

  /** How far a log call, a verification or a clear has come inside its section. */
  datatype Place =
    | Number                                             // about to take a number
    | Compute(num: nat)                                  // about to compute the tag
    | Store(num: nat, chained: nat)                      // about to write the event into the ring
    | Chain                                              // about to move the chaining word on
    | Begin                                              // about to find the oldest event
    | Walk(i: nat, chain: nat)                           // loop head: event i is next
    | Copied(i: nat, chain: nat, saved: nat)             // the chaining word is put aside
    | Borrowed(i: nat, chain: nat, saved: nat)           // and stands for the tag before event i
    | PutBack(i: nat, chain: nat, saved: nat, ok: bool)  // about to restore it
    | Wipe                                               // about to empty the ring
    | Unchain                                            // about to zero the chaining word

  function First(job: Job): Place {
    match job
    case Logging => Number
    case Verifying => Begin
    case Clearing => Wipe
  }

  datatype Then = Done | More(q: Place)

  /** How many of n events a ring of 1000 slots has overwritten. */
  function Overwritten(n: nat): nat {
    if n <= Audit.SIZE then 0 else n - Audit.SIZE
  }

  function Stored(t: Trail, e: Ev): Trail {
    t.(events := t.events + [e], lost := if |t.events| - t.lost == Audit.SIZE then t.lost + 1 else t.lost)
  }

  function Judged(t: Trail, ok: bool): Trail {
    t.(verdicts := t.verdicts + [Verdict(ok, t.lost)])
  }

  function Advance(q: Place, t: Trail): (Then, Trail) {
    match q
    case Number => (More(Compute(t.next)), t.(next := (t.next + 1) % Audit.RANGE))
    case Compute(num) => (More(Store(num, t.word)), t)
    case Store(num, chained) => (More(Chain), Stored(t, Ev(num, chained)))
    case Chain => (Done, t.(word := |t.events|))
    case Begin => (More(Walk(t.lost, 0)), t)
    case Walk(i, chain) => if i >= |t.events| then (Done, Judged(t, true)) else (More(Copied(i, chain, t.word)), t)
    case Copied(i, chain, saved) => (More(Borrowed(i, chain, saved)), t.(word := chain))
    case Borrowed(i, chain, saved) =>
      (More(PutBack(i, chain, saved, i < |t.events| && t.events[i].chained == t.word)), t)
    case PutBack(i, chain, saved, ok) =>
      var t' := t.(word := saved);
      if ok then (More(Walk(i + 1, i + 1)), t') else (Done, Judged(t', false))
    case Wipe => (More(Unchain), t.(events := [], lost := 0, base := t.next))
    case Unchain => (Done, t.(word := 0))
  }

  /** Event i has number base + i and is chained to the event before it. */
  ghost predicate Linked(t: Trail) {
    forall i :: 0 <= i < |t.events| ==> t.events[i] == Ev((t.base + i) % Audit.RANGE, i)
  }

  /** Every verification accepted if and only if nothing had been overwritten. */
  ghost predicate Judicious(t: Trail) {
    forall v :: v in t.verdicts ==> (v.ok <==> v.lost == 0)
  }

  ghost predicate Sound(t: Trail) {
    Linked(t) && Judicious(t) && t.lost == Overwritten(|t.events|)
  }

  /** The number of an event that comes k after the last. */
  function NumberAt(t: Trail, k: nat): nat {
    (t.base + (|t.events| + k)) % Audit.RANGE
  }

  /** As it is between calls. */
  ghost predicate AtRest(t: Trail) {
    Sound(t) && t.word == |t.events| && t.next == NumberAt(t, 0)
  }

  /** A verification that has come to event i: it gets past the oldest one only if nothing was overwritten. */
  predicate WalkOk(t: Trail, i: nat, chain: nat) {
    t.lost <= i <= |t.events| && chain == (if i == t.lost then 0 else i) && (i > t.lost ==> t.lost == 0)
  }

  /** As the call at this place finds it. */
  ghost predicate PlaceOk(t: Trail, q: Place) {
    Sound(t) &&
    var n := |t.events|;
    match q
    case Number => t.word == n && t.next == NumberAt(t, 0)
    case Compute(num) => t.word == n && num == NumberAt(t, 0) && t.next == NumberAt(t, 1)
    case Store(num, chained) => t.word == n && num == NumberAt(t, 0) && chained == n && t.next == NumberAt(t, 1)
    case Chain => t.word + 1 == n && t.next == NumberAt(t, 0)
    case Begin => t.word == n && t.next == NumberAt(t, 0)
    case Walk(i, chain) => t.word == n && t.next == NumberAt(t, 0) && WalkOk(t, i, chain)
    case Copied(i, chain, saved) => t.word == n == saved && t.next == NumberAt(t, 0) && WalkOk(t, i, chain) && i < n
    case Borrowed(i, chain, saved) =>
      t.word == chain && saved == n && t.next == NumberAt(t, 0) && WalkOk(t, i, chain) && i < n
    case PutBack(i, chain, saved, ok) =>
      saved == n && t.next == NumberAt(t, 0) && WalkOk(t, i, chain) && i < n && (ok <==> chain == i)
    case Wipe => t.word == n && t.next == NumberAt(t, 0)
    case Unchain => n == 0 && t.next == NumberAt(t, 0)
  }

  lemma FirstOk(t: Trail, job: Job)
    requires AtRest(t)
    ensures PlaceOk(t, First(job))
  {
    hide Sound, NumberAt;
  }

  lemma NextNumber(x: nat)
    ensures (x % Audit.RANGE + 1) % Audit.RANGE == (x + 1) % Audit.RANGE
    ensures x % Audit.RANGE % Audit.RANGE == x % Audit.RANGE
  {
  }

  lemma StoredSound(t: Trail, e: Ev)
    requires Sound(t) && e == Ev(NumberAt(t, 0), |t.events|)
    ensures Sound(Stored(t, e))
  {
    var t' := Stored(t, e);
    forall i | 0 <= i < |t'.events| ensures t'.events[i] == Ev((t'.base + i) % Audit.RANGE, i) {
      assert i < |t.events| ==> t'.events[i] == t.events[i];
    }
  }

  lemma JudgedSound(t: Trail, ok: bool)
    requires Sound(t) && (ok <==> t.lost == 0)
    ensures Sound(Judged(t, ok))
  {
    assert Linked(Judged(t, ok));
  }

  /** The oldest event in the ring is chained to the zero tag if and only if nothing was overwritten. */
  lemma CompareAt(t: Trail, i: nat, chain: nat)
    requires Sound(t) && WalkOk(t, i, chain) && i < |t.events|
    ensures t.events[i].chained == chain <==> chain == i
    ensures chain == i <==> t.lost == 0
  {
  }

  /** The step leaves the log as the next place expects it, or at rest. */
  ghost predicate StepOk(t: Trail, q: Place) {
    var (next, t') := Advance(q, t);
    if next.Done? then AtRest(t') else PlaceOk(t', next.q)
  }

  /** The steps of a log call. */
  lemma LogStepOk(t: Trail, q: Place)
    requires PlaceOk(t, q) && (q.Number? || q.Compute? || q.Store? || q.Chain?)
    ensures StepOk(t, q)
  {
    NextNumber(t.base + |t.events|);
    if q.Store? {
      StoredSound(t, Ev(q.num, q.chained));
    } else {
      OtherWord(t, Advance(q, t).1);
    }
    hide Sound;
  }

  /** Nothing but the chaining word and the next number has changed. */
  lemma OtherWord(t: Trail, t': Trail)
    requires Sound(t) && t' == t.(word := t'.word, next := t'.next)
    ensures Sound(t')
  {
  }

  /** The steps of a verification. */
  lemma VerifyStepOk(t: Trail, q: Place)
    requires PlaceOk(t, q) && (q.Begin? || q.Walk? || q.Copied? || q.Borrowed?)
    ensures StepOk(t, q)
  {
    if q.Borrowed? {
      CompareAt(t, q.i, q.chain);
    } else if q.Copied? {
      OtherWord(t, t.(word := q.chain));
    } else if q.Walk? && q.i >= |t.events| {
      JudgedSound(t, true);
    }
    hide Linked, Judicious;
  }

  lemma PutBackOk(t: Trail, q: Place)
    requires PlaceOk(t, q) && q.PutBack?
    ensures StepOk(t, q)
  {
    var t' := t.(word := q.saved);
    OtherWord(t, t');
    CompareAt(t, q.i, q.chain);
    if !q.ok {
      JudgedSound(t', false);
    }
    hide Linked, Judicious;
  }

  /** The steps of a clear. */
  lemma ClearStepOk(t: Trail, q: Place)
    requires PlaceOk(t, q) && (q.Wipe? || q.Unchain?)
    ensures StepOk(t, q)
  {
    NextNumber(t.base + |t.events|);
  }

  /** A step of the call at work leaves the log as the next place expects it, or at rest. */
  lemma AdvanceOk(t: Trail, q: Place)
    requires PlaceOk(t, q)
    ensures StepOk(t, q)
  {
    hide PlaceOk, StepOk;
    if q.Number? || q.Compute? || q.Store? || q.Chain? {
      LogStepOk(t, q);
    } else if q.PutBack? {
      PutBackOk(t, q);
    } else if q.Wipe? || q.Unchain? {
      ClearStepOk(t, q);
    } else {
      VerifyStepOk(t, q);
    }
  }
}
