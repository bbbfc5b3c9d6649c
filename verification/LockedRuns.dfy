/**
 Critical sections at work under interleaving. Threads, interrupt handlers and trap handlers run
 `csprng_random_bytes` and `csprng_reseed` on one shared generator, and log calls, verifications and clears on
 one audit log, on top of the critical-section machine: every access to the shared data is a step of its own,
 and the machine decides what may happen between two of them.
 */
module LockedRuns {
  import opened Critical
  import opened CsprngSizes
  import CriticalRuns
  import AuditSteps

  const KEY_WORDS: nat := 8

  /** The request on behalf of which a reseed runs, if any. */
  datatype Request = Request(id: nat, len: nat)
  datatype Caller = Standalone | Nested(r: Request)

  /** How far a context has come in the code of the generator or the audit log. */
  datatype Prog =
    | Idle
    | Locking(len: nat)             // random_bytes: entering its critical section
    | Checking(r: Request)          // about to test the reseed limit
    | Granting(r: Request, ok: bool)  // about to enter the loop; `ok` unless entropy collection failed
    | Loading(r: Request)           // loop head: about to copy the counter into the state words
    | Emitting(r: Request)          // about to produce a block from the state
    | Bumping(r: Request)           // about to count the block
    | Unlocking
    | ReseedLocking(who: Caller)     // reseed: entering its critical section
    | ReseedKey(who: Caller, i: nat)  // about to write word i of the new key
    | ReseedCounter(who: Caller)     // about to zero counter and byte count
    | ReseedUnlocking(who: Caller)
    | AuditLocking(job: AuditSteps.Job)   // log or verification: entering its critical section
    | Auditing(q: AuditSteps.Place)       // at work inside it

  /** The shared generator. `epoch` names the key, which is whole unless a new one is half written; `bytes`
      is the 32-bit byte count of the source, and `since` the true number of bytes since it was last zeroed. */
  datatype Gen = Gen(epoch: nat, whole: bool, words: nat, counter: nat, bytes: nat, since: nat)

  /** A block handed out: to which request, under which key, from which counter value. */
  datatype Block = Block(req: nat, epoch: nat, whole: bool, index: nat)

  /** A request that enters the loop: with which counts, and whether no reseed failed before it. */
  datatype Grant = Grant(req: nat, bytes: nat, since: nat, ok: bool)

  datatype Ledger = Ledger(gen: Gen, log: seq<Block>, grants: seq<Grant>, nextReq: nat, audit: AuditSteps.Trail)

  /** `progs` and `parked` say where the contexts of `m.stack` and `m.parked` stand. */
  datatype System = System(m: Machine, progs: seq<Prog>, parked: seq<Prog>, l: Ledger)

  datatype Event =
    | Act(a: Action)
    | Want(len: nat) | WantReseed
    | CheckLimit(collected: bool) | EnterLoop | Load | Emit | Bump
    | WriteKey | ZeroCounter
    | WantAudit(job: AuditSteps.Job) | AuditStep

  // ---------------------------------------------------------------- steps

  function TopProg(s: System): Prog
    requires s.progs != []
  {
    s.progs[|s.progs| - 1]
  }

  predicate WellFormed(s: System) {
    && s.m.stack != [] && |s.progs| == |s.m.stack| && |s.parked| == |s.m.parked|
  }

  predicate EnterAction(a: Action) {
    a == ReadFlags || a == Mask || a == Decide || a == Save || a == Count
  }

  predicate ExitAction(a: Action) {
    a == Check || a == Uncount || a == Test || a == Restore
  }

  /** The code performs exactly the enters and exits it is written with. */
  predicate MayDo(p: Prog, a: Action) {
    match a
    case Deliver(_) => true
    case Switch(_) => true
    case ContextEnter => true
    case _ =>
      || p == Idle
      || (EnterAction(a) && (p.Locking? || p.ReseedLocking? || p.AuditLocking?))
      || (ExitAction(a) && (p.Unlocking? || p.ReseedUnlocking?))
  }

  /** A call can begin. A trap handler makes one only if no section was open when the trap came. */
  predicate CanCall(c: Context, g: Globals, p: Prog) {
    p == Idle && Executing(c) && c.pc == Run && (c.kind == Trap ==> g.depth == 0)
  }

  /** The actions on the shared data. */
  predicate GenEnabled(c: Context, g: Globals, p: Prog, e: Event) {
    match e
    case Act(_) => false
    case Want(_) => CanCall(c, g, p)
    case WantReseed => CanCall(c, g, p)
    case WantAudit(_) => CanCall(c, g, p)
    case AuditStep => p.Auditing?
    case CheckLimit(_) => p.Checking?
    case EnterLoop => p.Granting?
    case Load => p.Loading?
    case Emit => p.Emitting?
    case Bump => p.Bumping?
    case WriteKey => p.ReseedKey?
    case ZeroCounter => p.ReseedCounter?
  }

  predicate Possible(s: System, e: Event) {
    && WellFormed(s)
    && if e.Act? then Enabled(s.m, e.a) && MayDo(TopProg(s), e.a) else GenEnabled(Top(s.m), s.m.g, TopProg(s), e)
  }

  function Entered(p: Prog, id: nat): Prog {
    match p
    case Locking(len) => Checking(Request(id, len))
    case ReseedLocking(who) => ReseedKey(who, 0)
    case AuditLocking(job) => Auditing(AuditSteps.First(job))
    case _ => p
  }

  function Exited(p: Prog): Prog {
    match p
    case Unlocking => Idle
    case ReseedUnlocking(Standalone) => Idle
    case ReseedUnlocking(Nested(r)) => Granting(r, true)
    case _ => p
  }

  /** What a step of the context on top does to its place in the generator's code. */
  function ProgAfter(p: Prog, a: Action, pc: Pc, id: nat): Prog {
    match a
    case Count => Entered(p, id)
    case Test => if pc == Run then Exited(p) else p
    case Restore => Exited(p)
    case _ => p
  }

  /** A request gets its number when it obtains the critical section. */
  function LedgerAfter(p: Prog, a: Action, l: Ledger): Ledger {
    if a == Count && p.Locking? then l.(nextReq := l.nextReq + 1) else l
  }

  function MachineStep(s: System, a: Action): System
    requires Possible(s, Act(a))
  {
    var m' := Step(s.m, a);
    var p, below := TopProg(s), s.progs[..|s.progs| - 1];
    match a
    case Deliver(_) => s.(m := m', progs := s.progs + [Idle])
    case Iret => s.(m := m', progs := below)
    case Switch(next) => s.(m := m', progs := [s.parked[next]], parked := s.parked[next := p])
    case _ =>
      s.(m := m', progs := below + [ProgAfter(p, a, Top(m').pc, s.l.nextReq)],
         l := LedgerAfter(p, a, s.l))
  }

  function Min(a: nat, b: nat): nat {
    if a < b then a else b
  }

  function GenNext(p: Prog, l: Ledger, c: Context, m: Globals, e: Event): (Prog, Ledger)
    requires GenEnabled(c, m, p, e)
  {
    var g := l.gen;
    match e
    case Want(len) => (Locking(len), l)
    case WantReseed => (ReseedLocking(Standalone), l)
    case CheckLimit(collected) =>
      if g.bytes < RESEED_LIMIT then (Granting(p.r, true), l)
      else if collected then (ReseedLocking(Nested(p.r)), l)
      else (Granting(p.r, false), l)
    case EnterLoop => (Loading(p.r), l.(grants := l.grants + [Grant(p.r.id, g.bytes, g.since, p.ok)]))
    case Load =>
      if p.r.len == 0 then (Unlocking, l)
      else (Emitting(p.r), l.(gen := g.(words := g.counter)))
    case Emit => (Bumping(p.r), l.(log := l.log + [Block(p.r.id, g.epoch, g.whole, g.words)]))
    case Bump =>
      var n := Min(p.r.len, BLOCK);
      (Loading(p.r.(len := p.r.len - n)),
       l.(gen := g.(counter := (g.counter + 1) % COUNTER_RANGE, bytes := (g.bytes + n) % WORD, since := g.since + n)))
    case WriteKey =>
      (if p.i + 1 < KEY_WORDS then ReseedKey(p.who, p.i + 1) else ReseedCounter(p.who),
       l.(gen := g.(epoch := if p.i == 0 then g.epoch + 1 else g.epoch, whole := p.i + 1 >= KEY_WORDS)))
    case ZeroCounter => (ReseedUnlocking(p.who), l.(gen := g.(words := 0, counter := 0, bytes := 0, since := 0)))
    case WantAudit(job) => (AuditLocking(job), l)
    case AuditStep =>
      var (next, audit) := AuditSteps.Advance(p.q, l.audit);
      (if next.Done? then Unlocking else Auditing(next.q), l.(audit := audit))
  }

  function Next(s: System, e: Event): System
    requires Possible(s, e)
  {
    if e.Act? then MachineStep(s, e.a)
    else
      var (p', l') := GenNext(TopProg(s), s.l, Top(s.m), s.m.g, e);
      s.(progs := s.progs[..|s.progs| - 1] + [p'], l := l')
  }

  // ---------------------------------------------------------------- invariant

  /** Whose code may touch the generator: the context holds the critical section. */
  predicate Holds(p: Prog) {
    match p
    case Idle => false
    case Locking(_) => false
    case Unlocking => false
    case AuditLocking(_) => false
    case ReseedLocking(who) => who.Nested?
    case ReseedUnlocking(who) => who.Nested?
    case _ => true
  }

  function Extra(who: Caller): nat {
    if who.Nested? then 1 else 0
  }

  predicate InEnter(pc: Pc) { pc == Run || pc.EnterRead? || pc.EnterMasked? || pc.EnterDecided? || pc.EnterCount? }
  predicate InExit(pc: Pc) { pc == Run || pc.ExitCount? || pc.ExitTest? || pc.ExitRestore? }

  /** A context and its place in the generator's code agree. */
  predicate ProgOk(c: Context, p: Prog) {
    && (p != Idle ==> Executing(c))
    && match p
       case Idle => true
       case Locking(_) => InEnter(c.pc)
       case AuditLocking(_) => InEnter(c.pc)
       case ReseedLocking(who) => InEnter(c.pc) && c.nest >= Extra(who)
       case ReseedKey(who, _) => c.pc == Run && c.nest >= 1 + Extra(who)
       case ReseedCounter(who) => c.pc == Run && c.nest >= 1 + Extra(who)
       case ReseedUnlocking(who) =>
         && InExit(c.pc) && c.nest >= Extra(who) && (c.pc.ExitRestore? ==> c.nest == 0)
         && (c.pc == Run || c.pc.ExitCount? ==> c.nest >= 1 + Extra(who))
       case Unlocking =>
         && InExit(c.pc) && (c.pc == Run || c.pc.ExitCount? ==> c.nest >= 1)
       case _ => c.pc == Run && c.nest >= 1
  }

  predicate LogOk(log: seq<Block>) {
    log == [] ||
    var n := |log| - 1;
    && LogOk(log[..n])
    && log[n].index < COUNTER_RANGE && log[n].whole
    && (n > 0 ==> Follows(log[n - 1], log[n]))
  }

  /** Neighbours in the log: requests and epochs only go up, one request has one epoch, and inside an
      epoch the counter goes up by one. */
  predicate Follows(a: Block, b: Block) {
    && a.req <= b.req && a.epoch <= b.epoch
    && (a.req == b.req ==> a.epoch == b.epoch)
    && (if a.epoch == b.epoch then b.index == (a.index + 1) % COUNTER_RANGE else b.index == 0)
  }

  /** The counter continues the last block of the current epoch, or the epoch is still unused. */
  predicate Ready(l: Ledger) {
    l.gen.whole &&
    (l.log == [] ||
     var b := l.log[|l.log| - 1];
     l.gen.counter == if b.epoch == l.gen.epoch then (b.index + 1) % COUNTER_RANGE else 0)
  }

  /** No block has been made with the new key. */
  predicate Unused(l: Ledger) {
    l.log == [] || l.log[|l.log| - 1].epoch < l.gen.epoch
  }

  /** The request has no block yet. */
  predicate Fresh(l: Ledger, r: Request) {
    r.id < l.nextReq && (l.log == [] || l.log[|l.log| - 1].req < r.id)
  }

  /** Blocks the request already has come from the current epoch. */
  predicate Serving(l: Ledger, r: Request) {
    r.id < l.nextReq &&
    (l.log == [] || var b := l.log[|l.log| - 1]; b.req <= r.id && (b.req == r.id ==> b.epoch == l.gen.epoch))
  }

  predicate CallerFresh(l: Ledger, who: Caller) {
    who.Nested? ==> Fresh(l, who.r)
  }

  /** The generator, as the context that holds it (or nobody) finds it. */
  predicate GenOk(l: Ledger, p: Prog) {
    match p
    case Checking(r) => Ready(l) && Fresh(l, r)
    case Granting(r, ok) => Ready(l) && Fresh(l, r) && (ok ==> l.gen.bytes < RESEED_LIMIT)
    case Loading(r) => Ready(l) && Serving(l, r)
    case Emitting(r) => Ready(l) && Serving(l, r) && l.gen.words == l.gen.counter
    case Bumping(r) =>
      && l.log != [] && l.log[|l.log| - 1] == Block(r.id, l.gen.epoch, true, l.gen.counter)
      && r.id < l.nextReq && l.gen.whole
    case ReseedLocking(who) => Ready(l) && CallerFresh(l, who)
    case ReseedKey(who, i) => CallerFresh(l, who) && if i == 0 then Ready(l) else Unused(l)
    case ReseedCounter(who) => CallerFresh(l, who) && Unused(l) && l.gen.whole
    case ReseedUnlocking(who) => Ready(l) && CallerFresh(l, who) && (who.Nested? ==> l.gen.bytes == 0)
    case _ => Ready(l)
  }

  /** The count is the true one modulo 2^32, and below the limit unless a reseed failed. */
  predicate GrantOk(g: Grant) {
    g.bytes == g.since % WORD && (g.ok ==> g.bytes < RESEED_LIMIT)
  }

  ghost predicate LedgerOk(l: Ledger) {
    && LogOk(l.log)
    && (l.log != [] ==> l.log[|l.log| - 1].epoch <= l.gen.epoch && l.log[|l.log| - 1].req < l.nextReq)
    && l.gen.counter < COUNTER_RANGE && l.gen.bytes == l.gen.since % WORD
    && (forall g :: g in l.grants ==> GrantOk(g))
  }

  /** The context that holds the generator, or Idle. */
  function Holder(progs: seq<Prog>): Prog {
    if progs == [] then Idle
    else if Holds(progs[|progs| - 1]) then progs[|progs| - 1]
    else Holder(progs[..|progs| - 1])
  }

  /** The audit log, as the context that holds it (or nobody) finds it. */
  ghost predicate AuditOk(l: Ledger, p: Prog) {
    if p.Auditing? then AuditSteps.PlaceOk(l.audit, p.q) else AuditSteps.AtRest(l.audit)
  }

  /** The shared data, as this context finds it. */
  ghost predicate SharedOk(l: Ledger, p: Prog) {
    LedgerOk(l) && GenOk(l, p) && AuditOk(l, p)
  }

  ghost predicate DataOk(s: System) {
    SharedOk(s.l, Holder(s.progs))
  }

  /** No context below j has a section open. */
  ghost predicate NoneOpen(stack: seq<Context>, j: nat)
    requires j <= |stack|
  {
    forall i :: 0 <= i < j ==> stack[i].nest == 0
  }

  /** A trap handler at work came when no section was open. */
  ghost predicate TrapsOutside(stack: seq<Context>, progs: seq<Prog>)
    requires |stack| == |progs|
  {
    forall j {:trigger progs[j]} :: 0 <= j < |progs| && stack[j].kind == Trap && progs[j] != Idle ==> NoneOpen(stack, j)
  }

  ghost predicate CodeOk(s: System) {
    && WellFormed(s)
    && Inv(s.m)
    && (forall i {:trigger s.progs[i]} :: 0 <= i < |s.progs| ==> ProgOk(s.m.stack[i], s.progs[i]))
    && (forall i {:trigger s.parked[i]} :: 0 <= i < |s.parked| ==> ProgOk(s.m.parked[i], s.parked[i]))
    && TrapsOutside(s.m.stack, s.progs)
  }

  ghost predicate SysInv(s: System) {
    CodeOk(s) && DataOk(s)
  }

  ghost predicate Start(s: System) {
    && WellFormed(s) && Initial(s.m)
    && (forall p :: p in s.progs + s.parked ==> p == Idle)
    && s.l.log == [] && s.l.grants == [] && s.l.gen.counter < COUNTER_RANGE
    && s.l.gen.whole && s.l.gen.bytes == s.l.gen.since % WORD && AuditSteps.AtRest(s.l.audit)
  }

  /** At most one context holds the generator, and then no other context but trap handlers above it can move. */
  lemma OneHolder(s: System, i: nat, j: nat)
    requires CodeOk(s) && i < j < |s.progs| && Holds(s.progs[i])
    ensures s.progs[j] == Idle && s.m.stack[j].kind == Trap
  {
    assert ProgOk(s.m.stack[i], s.progs[i]) && ProgOk(s.m.stack[j], s.progs[j]);
    TrapTells(s, j);
    CriticalRuns.OnlyTrapsAbove(s.m.stack, s.m.g.interruptFlag, i, j);
  }

  lemma TrapTells(s: System, j: nat)
    requires CodeOk(s) && j < |s.progs|
    ensures s.m.stack[j].kind == Trap && s.progs[j] != Idle ==> NoneOpen(s.m.stack, j)
  {
    hide Inv, ProgOk;
    assert s.progs[j] == s.progs[j];
  }

  lemma {:induction false} NoHolder(progs: seq<Prog>)
    requires forall i {:trigger progs[i]} :: 0 <= i < |progs| ==> !Holds(progs[i])
    ensures Holder(progs) == Idle
  {
    if progs != [] {
      NoHolder(progs[..|progs| - 1]);
    }
  }

  lemma HolderPush(progs: seq<Prog>, p: Prog)
    ensures Holder(progs + [p]) == if Holds(p) then p else Holder(progs)
  {
    assert (progs + [p])[..|progs|] == progs;
  }

  lemma StartInv(s: System)
    requires Start(s)
    ensures SysInv(s)
  {
    InitialInv(s.m);
    forall i {:trigger s.progs[i]} | 0 <= i < |s.progs| ensures s.progs[i] == Idle {
      assert s.progs[i] in s.progs + s.parked;
    }
    forall i {:trigger s.parked[i]} | 0 <= i < |s.parked| ensures s.parked[i] == Idle {
      assert s.parked[i] in s.progs + s.parked;
    }
    NoHolder(s.progs);
  }

  // ---------------------------------------------------------------- one step

  lemma OwnProgStep(c: Context, g: Globals, alone: bool, a: Action, p: Prog, id: nat)
    requires Own(a) && OwnEnabled(c, g, a) && LocalOk(c, g, alone) && ProgOk(c, p) && MayDo(p, a)
    ensures ProgOk(NextContext(c, g, a), ProgAfter(p, a, NextContext(c, g, a).pc, id))
    ensures NextContext(c, g, a).kind == c.kind && (p == Idle ==> ProgAfter(p, a, NextContext(c, g, a).pc, id) == Idle)
  {
  }

  /** Only the context on top has moved. */
  lemma TopMoved(s: System, s': System, c: Context, p: Prog)
    requires CodeOk(s) && Inv(s'.m) && ProgOk(c, p)
    requires c.kind == Trap && p != Idle ==> NoneOpen(s.m.stack, |s.m.stack| - 1)
    requires s'.m.stack == Below(s.m) + [c] && s'.m.parked == s.m.parked
    requires s'.progs == s.progs[..|s.progs| - 1] + [p] && s'.parked == s.parked
    ensures CodeOk(s')
  {
    hide Inv, ProgOk;
    var top := |s.m.stack| - 1;
    forall j {:trigger s'.progs[j]} | 0 <= j < top && s'.m.stack[j].kind == Trap && s'.progs[j] != Idle
      ensures NoneOpen(s'.m.stack, j)
    {
      assert s.progs[j] == s'.progs[j] && NoneOpen(s.m.stack, j);
    }
  }

  lemma OwnStepIs(s: System, a: Action)
    requires Possible(s, Act(a)) && Own(a)
    ensures MachineStep(s, a).l == LedgerAfter(TopProg(s), a, s.l)
    ensures var m, s' := Step(s.m, a), MachineStep(s, a);
            && m.stack == Below(s.m) + [NextContext(Top(s.m), s.m.g, a)] && m.parked == s.m.parked && s'.m == m
            && s'.progs == s.progs[..|s.progs| - 1] +
                [ProgAfter(TopProg(s), a, NextContext(Top(s.m), s.m.g, a).pc, s.l.nextReq)]
            && s'.parked == s.parked
  {
    hide NextContext, NextGlobals, ProgAfter, MayDo, OwnEnabled;
  }

  lemma OwnActKeepsCode(s: System, a: Action)
    requires CodeOk(s) && Possible(s, Act(a)) && Own(a) && Inv(Step(s.m, a))
    ensures CodeOk(MachineStep(s, a))
  {
    hide Step, MachineStep, NextContext, NextGlobals, ProgAfter, MayDo, OwnEnabled, Inv, ProgOk, LocalOk;
    InvLocal(s.m);
    assert OwnEnabled(Top(s.m), s.m.g, a) && MayDo(TopProg(s), a);
    assert ProgOk(Top(s.m), TopProg(s));
    hide Own;
    OwnStepIs(s, a);
    OwnProgStep(Top(s.m), s.m.g, |s.m.stack| == 1, a, TopProg(s), s.l.nextReq);
    var c := NextContext(Top(s.m), s.m.g, a);
    TopMoved(s, MachineStep(s, a), c, ProgAfter(TopProg(s), a, c.pc, s.l.nextReq));
  }

  lemma IdleOk(c: Context)
    ensures ProgOk(c, Idle)
  {
  }

  /** A handler has come on top. */
  lemma Pushed(s: System, s': System, c: Context)
    requires CodeOk(s) && Inv(s'.m)
    requires s'.m.stack == s.m.stack + [c] && s'.m.parked == s.m.parked && s'.progs == s.progs + [Idle]
    requires s'.parked == s.parked
    ensures CodeOk(s')
  {
    hide Inv, ProgOk;
    IdleOk(c);
    forall j {:trigger s'.progs[j]} | 0 <= j < |s.progs| && s'.m.stack[j].kind == Trap && s'.progs[j] != Idle
      ensures NoneOpen(s'.m.stack, j)
    {
      assert s.progs[j] == s'.progs[j] && NoneOpen(s.m.stack, j);
    }
  }

  /** The handler on top is gone. */
  lemma Popped(s: System, s': System)
    requires CodeOk(s) && Inv(s'.m) && |s.m.stack| > 1
    requires s'.m.stack == Below(s.m) && s'.m.parked == s.m.parked && s'.progs == s.progs[..|s.progs| - 1]
    requires s'.parked == s.parked
    ensures CodeOk(s')
  {
    hide Inv, ProgOk;
    forall j {:trigger s'.progs[j]} | 0 <= j < |s'.progs| && s'.m.stack[j].kind == Trap && s'.progs[j] != Idle
      ensures NoneOpen(s'.m.stack, j)
    {
      assert s.progs[j] == s'.progs[j] && NoneOpen(s.m.stack, j);
    }
  }

  lemma SwitchKeepsCode(s: System, next: nat)
    requires CodeOk(s) && Possible(s, Act(Switch(next))) && Inv(Step(s.m, Switch(next)))
    ensures CodeOk(MachineStep(s, Switch(next)))
  {
    hide Inv, ProgOk;
    assert ProgOk(s.m.stack[0], s.progs[0]) && ProgOk(s.m.parked[next], s.parked[next]);
  }

  lemma IretLeavesMore(m: Machine)
    requires Inv(m) && Enabled(m, Iret)
    ensures |m.stack| > 1
  {
  }

  lemma ActKeepsCode(s: System, a: Action)
    requires CodeOk(s) && Possible(s, Act(a))
    ensures CodeOk(MachineStep(s, a))
  {
    StepKeepsInv(s.m, a);
    if a == Iret {
      IretLeavesMore(s.m);
    }
    hide Inv, ProgOk, ProgAfter, MayDo, NextContext, NextGlobals, OwnEnabled, CodeOk;
    if Own(a) {
      OwnActKeepsCode(s, a);
    } else if a.Deliver? {
      Pushed(s, MachineStep(s, a), Top(Step(s.m, a)));
    } else if a == Iret {
      Popped(s, MachineStep(s, a));
    } else {
      SwitchKeepsCode(s, a.next);
    }
  }

  lemma GenProgStep(c: Context, g: Globals, p: Prog, l: Ledger, e: Event)
    requires GenEnabled(c, g, p, e) && ProgOk(c, p)
    ensures ProgOk(c, GenNext(p, l, c, g, e).0)
    ensures c.kind == Trap && p == Idle ==> g.depth == 0
  {
  }

  lemma GenKeepsCode(s: System, e: Event)
    requires CodeOk(s) && Possible(s, e) && !e.Act?
    ensures CodeOk(Next(s, e))
  {
    assert ProgOk(Top(s.m), TopProg(s));
    GenProgStep(Top(s.m), s.m.g, TopProg(s), s.l, e);
    if Top(s.m).kind == Trap {
      BelowClosed(s);
    }
    hide Inv, ProgOk, GenNext, GenEnabled;
    TopMoved(s, Next(s, e), Top(s.m), GenNext(TopProg(s), s.l, Top(s.m), s.m.g, e).0);
  }

  /** With a depth of zero nothing is open, and otherwise a trap handler at work has told. */
  lemma BelowClosed(s: System)
    requires CodeOk(s) && (s.m.g.depth == 0 || (Top(s.m).kind == Trap && TopProg(s) != Idle))
    ensures NoneOpen(s.m.stack, |s.m.stack| - 1)
  {
    var top := |s.m.stack| - 1;
    if s.m.g.depth == 0 {
      forall i | 0 <= i < top ensures s.m.stack[i].nest == 0 {
        CriticalRuns.OpenAtLeast(s.m.stack, i);
      }
    } else {
      assert s.progs[top] != Idle;
    }
  }

  /** A context that is at work in the generator's code has it to itself. */
  lemma AloneAtWork(s: System)
    requires CodeOk(s) && TopProg(s) != Idle
    ensures Holder(s.progs[..|s.progs| - 1]) == Idle
  {
    var below := s.progs[..|s.progs| - 1];
    forall i {:trigger below[i]} | 0 <= i < |below| ensures !Holds(below[i]) {
      if Holds(s.progs[i]) {
        OneHolder(s, i, |s.progs| - 1);
      }
    }
    NoHolder(below);
  }

  lemma EmitStep(l: Ledger, b: Block)
    requires LedgerOk(l) && b.index < COUNTER_RANGE && b.whole && b.epoch == l.gen.epoch && b.req < l.nextReq
    requires l.log != [] ==> Follows(l.log[|l.log| - 1], b)
    ensures LedgerOk(l.(log := l.log + [b]))
  {
    hide Follows;
    var log := l.log + [b];
    assert log[..|log| - 1] == l.log && log[|log| - 1] == b;
    assert |l.log| > 0 ==> log[|log| - 2] == l.log[|l.log| - 1];
    assert LogOk(log);
  }

  /** To a context that does not hold the section, the data is as it is to nobody. */
  lemma RestIff(l: Ledger, p: Prog)
    requires !Holds(p)
    ensures SharedOk(l, p) <==> SharedOk(l, Idle)
  {
    hide LedgerOk, AuditSteps.AtRest;
  }

  /** What the step leaves is as the next place in the code expects it, and the audit log is untouched. */
  ghost predicate LeavesOk(l: Ledger, p': Prog, l': Ledger) {
    LedgerOk(l') && GenOk(l', p') && l'.audit == l.audit && !p'.Auditing?
  }

  lemma EmitLedgerStep(l: Ledger, r: Request)
    requires LedgerOk(l) && GenOk(l, Emitting(r))
    ensures LeavesOk(l, Bumping(r), l.(log := l.log + [Block(r.id, l.gen.epoch, l.gen.whole, l.gen.words)]))
  {
    hide LogOk;
    EmitStep(l, Block(r.id, l.gen.epoch, l.gen.whole, l.gen.words));
  }

  lemma BumpLedgerStep(l: Ledger, r: Request, n: nat)
    requires LedgerOk(l) && GenOk(l, Bumping(r)) && n <= r.len
    ensures LeavesOk(l, Loading(r.(len := r.len - n)),
                     l.(gen := l.gen.(counter := (l.gen.counter + 1) % COUNTER_RANGE,
                                      bytes := (l.gen.bytes + n) % WORD, since := l.gen.since + n)))
  {
    hide LogOk;
    BytesOn(l.gen.since, n);
  }

  lemma OtherLedgerStep(c: Context, g: Globals, p: Prog, l: Ledger, e: Event)
    requires GenEnabled(c, g, p, e) && p != Idle && e != AuditStep && e != Emit && e != Bump && LedgerOk(l)
    requires GenOk(l, p)
    ensures var (p', l') := GenNext(p, l, c, g, e); LeavesOk(l, p', l')
  {
    hide LogOk;
  }

  /** A step of the context at work leaves the generator as its next place in the code expects it. */
  lemma GenLedgerStep(c: Context, g: Globals, p: Prog, l: Ledger, e: Event)
    requires GenEnabled(c, g, p, e) && p != Idle && e != AuditStep && LedgerOk(l) && GenOk(l, p)
    ensures var (p', l') := GenNext(p, l, c, g, e); LeavesOk(l, p', l')
  {
    hide LedgerOk, GenOk, LeavesOk;
    if e == Emit {
      EmitLedgerStep(l, p.r);
    } else if e == Bump {
      BumpLedgerStep(l, p.r, Min(p.r.len, BLOCK));
    } else {
      OtherLedgerStep(c, g, p, l, e);
    }
  }

  lemma SharedStep(c: Context, g: Globals, p: Prog, l: Ledger, e: Event)
    requires GenEnabled(c, g, p, e) && p != Idle && SharedOk(l, p)
    ensures var (p', l') := GenNext(p, l, c, g, e); SharedOk(l', p')
  {
    hide LedgerOk, GenOk, AuditSteps.Advance, AuditSteps.PlaceOk, AuditSteps.AtRest;
    if e == AuditStep {
      AuditSteps.AdvanceOk(l.audit, p.q);
      assert GenOk(l, p) && LedgerOk(l);
      var (p', l') := GenNext(p, l, c, g, e);
      AuditAlone(l, l', p, p');
    } else {
      GenLedgerStep(c, g, p, l, e);
      assert !p.Auditing? by { hide GenNext; }
    }
  }

  /** The audit log and the generator are separate. */
  lemma AuditAlone(l: Ledger, l': Ledger, p: Prog, p': Prog)
    requires p.Auditing? && (p'.Auditing? || p' == Unlocking) && l' == l.(audit := l'.audit) && LedgerOk(l)
    requires GenOk(l, p)
    ensures LedgerOk(l') && GenOk(l', p')
  {
    hide LogOk;
  }

  lemma BytesOn(since: nat, n: nat)
    ensures (since % WORD + n) % WORD == (since + n) % WORD
  {
  }

  /** The context on top has the shared data to itself, or nobody below it holds it. */
  lemma TopData(s: System)
    requires SysInv(s) && TopProg(s) != Idle
    ensures SharedOk(s.l, TopProg(s)) && Holder(s.progs[..|s.progs| - 1]) == Idle
  {
    AloneAtWork(s);
    hide SharedOk, CodeOk;
    var below, p := s.progs[..|s.progs| - 1], TopProg(s);
    assert s.progs == below + [p];
    HolderPush(below, p);
    if !Holds(p) {
      RestIff(s.l, p);
    }
  }

  lemma TopDataBack(below: seq<Prog>, p: Prog, l: Ledger)
    requires Holder(below) == Idle && SharedOk(l, p)
    ensures SharedOk(l, Holder(below + [p]))
  {
    hide SharedOk;
    HolderPush(below, p);
    if !Holds(p) {
      RestIff(l, p);
    }
  }

  lemma GenKeepsData(s: System, e: Event)
    requires SysInv(s) && Possible(s, e) && !e.Act?
    ensures DataOk(Next(s, e))
  {
    hide SharedOk, CodeOk;
    var below, p := s.progs[..|s.progs| - 1], TopProg(s);
    if p != Idle {
      hide GenNext, GenEnabled;
      var (p', l') := GenNext(p, s.l, Top(s.m), s.m.g, e);
      TopData(s);
      SharedStep(Top(s.m), s.m.g, p, s.l, e);
      TopDataBack(below, p', l');
    } else {
      var (p', l') := GenNext(p, s.l, Top(s.m), s.m.g, e);
      assert s.progs == below + [p] && !Holds(p') && l' == s.l;
      HolderPush(below, p);
      HolderPush(below, p');
    }
  }

  /** Entering or leaving the critical section changes who holds the shared data, never the data. */
  lemma OwnLedgerStep(p: Prog, l: Ledger, a: Action, pc: Pc)
    requires Own(a) && MayDo(p, a) && SharedOk(l, p)
    requires a == Restore && p.ReseedUnlocking? ==> p.who.Standalone?
    ensures SharedOk(LedgerAfter(p, a, l), ProgAfter(p, a, pc, l.nextReq))
  {
    hide LogOk, AuditSteps.AtRest, AuditSteps.PlaceOk, AuditSteps.First;
    if p.AuditLocking? {
      AuditSteps.FirstOk(l.audit, p.job);
    }
  }

  lemma OwnActKeepsData(s: System, a: Action)
    requires SysInv(s) && Possible(s, Act(a)) && Own(a)
    ensures DataOk(MachineStep(s, a))
  {
    hide SharedOk, Step, MachineStep, NextContext, NextGlobals, ProgAfter, LedgerAfter, MayDo, OwnEnabled;
    OwnStepIs(s, a);
    var below, p := s.progs[..|s.progs| - 1], TopProg(s);
    var pc := NextContext(Top(s.m), s.m.g, a).pc;
    if p != Idle {
      TopData(s);
      if a == Restore {
        AtRestore(s, a);
      }
      OwnLedgerStep(p, s.l, a, pc);
      TopDataBack(below, ProgAfter(p, a, pc, s.l.nextReq), LedgerAfter(p, a, s.l));
    } else {
      IdleStays(a, pc, s.l);
      assert s.progs == below + [p];
    }
  }

  /** Only the outermost exit of a thread restores the flag. */
  lemma AtRestore(s: System, a: Action)
    requires CodeOk(s) && Possible(s, Act(a)) && a == Restore
    ensures TopProg(s).ReseedUnlocking? ==> TopProg(s).who.Standalone?
  {
    assert ProgOk(Top(s.m), TopProg(s));
  }

  lemma IdleStays(a: Action, pc: Pc, l: Ledger)
    ensures ProgAfter(Idle, a, pc, l.nextReq) == Idle && LedgerAfter(Idle, a, l) == l
  {
  }

  lemma SwitchKeepsData(s: System, next: nat)
    requires SysInv(s) && Possible(s, Act(Switch(next)))
    ensures DataOk(MachineStep(s, Switch(next)))
  {
    hide SharedOk;
    assert ProgOk(s.m.stack[0], s.progs[0]) && ProgOk(s.m.parked[next], s.parked[next]);
    InvLocal(s.m);
    assert s.m.parked[next] in s.m.parked;
    SwitchedOut(s.m, next);
    hide Inv;
    NoHolder(s.progs);
    NoHolder([s.parked[next]]);
  }

  /** A thread that can be preempted, and one that was, hold nothing. */
  lemma SwitchedOut(m: Machine, next: nat)
    requires Inv(m) && Enabled(m, Switch(next))
    ensures m.stack[0].nest == 0 && m.parked[next].nest == 0
  {
    InvLocal(m);
    assert m.parked[next] in m.parked;
  }

  lemma HandlerKeepsData(s: System, a: Action)
    requires SysInv(s) && Possible(s, Act(a)) && (a.Deliver? || a == Iret)
    ensures DataOk(MachineStep(s, a))
  {
    hide SharedOk, Inv;
    var top := |s.progs| - 1;
    assert s.progs == s.progs[..top] + [s.progs[top]];
    assert ProgOk(s.m.stack[top], s.progs[top]);
    HolderPush(s.progs, Idle);
    HolderPush(s.progs[..top], s.progs[top]);
  }

  lemma ActKeepsData(s: System, a: Action)
    requires SysInv(s) && Possible(s, Act(a))
    ensures DataOk(MachineStep(s, a))
  {
    hide SysInv, Possible, DataOk, MachineStep;
    if Own(a) {
      OwnActKeepsData(s, a);
    } else if a.Switch? {
      SwitchKeepsData(s, a.next);
    } else {
      HandlerKeepsData(s, a);
    }
  }

  lemma NextKeepsInv(s: System, e: Event)
    requires SysInv(s) && Possible(s, e)
    ensures SysInv(Next(s, e))
  {
    hide CodeOk, DataOk, MachineStep, GenNext, GenEnabled, MayDo, Enabled;
    if e.Act? {
      ActKeepsCode(s, e.a);
      ActKeepsData(s, e.a);
    } else {
      GenKeepsCode(s, e);
      GenKeepsData(s, e);
    }
  }

  // ---------------------------------------------------------------- whole runs

  predicate Runnable(s: System, events: seq<Event>)
    decreases |events|, 0
  {
    events == [] ||
    var last := |events| - 1;
    Runnable(s, events[..last]) && Possible(RunAll(s, events[..last]), events[last])
  }

  function RunAll(s: System, events: seq<Event>): System
    requires Runnable(s, events)
    decreases |events|, 1
  {
    if events == [] then s else Next(RunAll(s, events[..|events| - 1]), events[|events| - 1])
  }

  lemma {:induction false} RunAllKeepsInv(s: System, events: seq<Event>)
    requires SysInv(s) && Runnable(s, events)
    ensures SysInv(RunAll(s, events))
    decreases |events|
  {
    if events != [] {
      var last := |events| - 1;
      RunAllKeepsInv(s, events[..last]);
      NextKeepsInv(RunAll(s, events[..last]), events[last]);
    }
  }

  /** Along a good log, two blocks of one epoch are as far apart in counter as in the log, and two
      blocks of one request belong to one epoch. */
  lemma {:induction false} LogDistance(log: seq<Block>, i: nat, j: nat)
    requires LogOk(log) && i <= j < |log|
    ensures log[i].index < COUNTER_RANGE && log[i].whole
    ensures log[i].req <= log[j].req && log[i].epoch <= log[j].epoch
    ensures log[i].req == log[j].req ==> log[i].epoch == log[j].epoch
    ensures log[i].epoch == log[j].epoch ==> log[j].index == (log[i].index + (j - i)) % COUNTER_RANGE
    decreases |log|
  {
    var n := |log| - 1;
    if j < n {
      LogDistance(log[..n], i, j);
    } else if i < j {
      LogDistance(log[..n], i, j - 1);
      ModStep(log[i].index + (j - 1 - i));
    }
  }

  lemma ModStep(x: nat)
    ensures (x % COUNTER_RANGE + 1) % COUNTER_RANGE == (x + 1) % COUNTER_RANGE
  {
  }

  /** All blocks of one request come from one key, in consecutive counters, and inside an epoch no
      counter value comes twice within 2^64 blocks. */
  ghost predicate NotTorn(log: seq<Block>) {
    forall i, j :: 0 <= i < j < |log| ==> PairOk(log[i], log[j], j - i)
  }

  /** Two blocks that are `d` places apart in the log. */
  predicate PairOk(a: Block, b: Block, d: nat) {
    && (a.req == b.req ==> a.epoch == b.epoch && b.index == (a.index + d) % COUNTER_RANGE)
    && (a.epoch == b.epoch && 0 < d < COUNTER_RANGE ==> a.index != b.index)
  }

  lemma GoodPair(log: seq<Block>, i: nat, j: nat)
    requires LogOk(log) && i < j < |log|
    ensures PairOk(log[i], log[j], j - i)
  {
    LogDistance(log, i, j);
    if j - i < COUNTER_RANGE {
      ModDiffers(log[i].index, j - i);
    }
  }

  /** Over every run of threads, handlers and reseeds that the interrupt flag permits. */
  lemma RequestsAreNotTorn(s: System, events: seq<Event>)
    requires Start(s) && Runnable(s, events)
    ensures NotTorn(RunAll(s, events).l.log)
    ensures forall b :: b in RunAll(s, events).l.log ==> b.whole
  {
    StartInv(s);
    RunAllKeepsInv(s, events);
    var log := RunAll(s, events).l.log;
    forall i, j | 0 <= i < j < |log| ensures PairOk(log[i], log[j], j - i) {
      GoodPair(log, i, j);
    }
    forall b | b in log ensures b.whole {
      var i :| 0 <= i < |log| && log[i] == b;
      LogDistance(log, i, i);
    }
  }

  lemma ModDiffers(x: nat, d: nat)
    requires x < COUNTER_RANGE && 0 < d < COUNTER_RANGE
    ensures (x + d) % COUNTER_RANGE != x
  {
  }

  /** Over every run, a request whose reseeding did not fail starts with a byte count below the limit. The
      count is the true one modulo 2^32, so the true number of bytes since the last seeding is below the
      limit if and only if the count has not wrapped. */
  lemma GrantsBelowLimit(s: System, events: seq<Event>, g: Grant)
    requires Start(s) && Runnable(s, events)
    ensures g in RunAll(s, events).l.grants && g.ok ==>
      && g.bytes == g.since % WORD < RESEED_LIMIT
      && (g.since < RESEED_LIMIT <==> g.since < WORD)
  {
    hide RunAll, Runnable;
    StartInv(s);
    RunAllKeepsInv(s, events);
    if g in RunAll(s, events).l.grants {
      assert GrantOk(g);
    }
  }

  /** Over every run of log calls, verifications and clears, the events of the audit log are numbered in order,
      each is chained to the one before it, and every finished verification accepted if and only if the ring had
      overwritten nothing by then. Verifications park a foreign value in the chaining word, and no log call ever
      sees it. */
  lemma AuditIsNotTorn(s: System, events: seq<Event>)
    requires Start(s) && Runnable(s, events)
    ensures AuditSteps.Sound(RunAll(s, events).l.audit)
    ensures (forall p :: p in RunAll(s, events).progs ==> !Holds(p)) ==> AuditSteps.AtRest(RunAll(s, events).l.audit)
  {
    StartInv(s);
    RunAllKeepsInv(s, events);
    var s' := RunAll(s, events);
    hide CodeOk, RunAll, Runnable, LedgerOk, GenOk;
    if forall p :: p in s'.progs ==> !Holds(p) {
      NoHolder(s'.progs);
    }
  }
}
