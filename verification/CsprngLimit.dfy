/** A run in which the generator passes its reseed limit unseen: entropy collection keeps failing until the 32-bit byte
    count has wrapped. */
module CsprngLimit {
  import opened Critical
  import opened CsprngSizes
  import opened LockedRuns

  // ---------------------------------------------------------------- reachability

  ghost predicate Reaches(s: System, s': System) {
    exists events :: Runnable(s, events) && RunAll(s, events) == s'
  }

  lemma ReachesSelf(s: System)
    ensures Reaches(s, s)
  {
    assert Runnable(s, []) && RunAll(s, []) == s;
  }

  lemma ReachesNext(s: System, s': System, e: Event)
    requires Reaches(s, s') && Possible(s', e)
    ensures Reaches(s, Next(s', e))
  {
    hide Possible, Next;
    var events :| Runnable(s, events) && RunAll(s, events) == s';
    var more := events + [e];
    assert more[..|more| - 1] == events;
    assert Runnable(s, more) && RunAll(s, more) == Next(s', e);
  }

  // ---------------------------------------------------------------- one thread at work

  /** A single thread on the machine. */
  function Solo(c: Context, p: Prog, g: Globals, l: Ledger): System {
    System(Machine([c], [], g), [p], [], l)
  }

  lemma SoloAct(s: System, c: Context, p: Prog, g: Globals, l: Ledger, a: Action)
    requires Reaches(s, Solo(c, p, g, l)) && Own(a) && OwnEnabled(c, g, a) && MayDo(p, a)
    ensures var c' := NextContext(c, g, a);
            Reaches(s, Solo(c', ProgAfter(p, a, c'.pc, l.nextReq), NextGlobals(c, g, a), LedgerAfter(p, a, l)))
  {
    hide Reaches, MayDo, OwnEnabled, NextContext, NextGlobals, ProgAfter, LedgerAfter;
    var now := Solo(c, p, g, l);
    assert Top(now.m) == c && Below(now.m) == [] && TopProg(now) == p && now.progs[..0] == [];
    assert Possible(now, Act(a));
    var c', g' := NextContext(c, g, a), NextGlobals(c, g, a);
    OwnStepIs(now, a);
    SoloStep(c, p, g, l, a);
    ReachesNext(s, now, Act(a));
  }

  lemma SoloStep(c: Context, p: Prog, g: Globals, l: Ledger, a: Action)
    requires Own(a) && Possible(Solo(c, p, g, l), Act(a)) && OwnEnabled(c, g, a)
    ensures var c' := NextContext(c, g, a);
            Next(Solo(c, p, g, l), Act(a))
            == Solo(c', ProgAfter(p, a, c'.pc, l.nextReq), NextGlobals(c, g, a), LedgerAfter(p, a, l))
  {
    hide MayDo, OwnEnabled, NextContext, NextGlobals, ProgAfter, LedgerAfter;
    var now := Solo(c, p, g, l);
    assert Top(now.m) == c && Below(now.m) == [] && TopProg(now) == p && now.progs[..0] == [];
  }

  lemma SoloGen(s: System, c: Context, p: Prog, g: Globals, l: Ledger, e: Event)
    requires Reaches(s, Solo(c, p, g, l)) && !e.Act? && GenEnabled(c, g, p, e)
    ensures Reaches(s, Solo(c, GenNext(p, l, c, g, e).0, g, GenNext(p, l, c, g, e).1))
  {
    hide Reaches, GenEnabled, GenNext;
    var now := Solo(c, p, g, l);
    assert Top(now.m) == c && TopProg(now) == p && now.progs[..0] == [];
    assert Possible(now, e);
    var (p', l') := GenNext(p, l, c, g, e);
    assert Next(now, e) == Solo(c, p', g, l');
    ReachesNext(s, now, e);
  }

  /** A thread outside all sections, and one inside its own. */
  predicate Outside(c: Context, g: Globals) {
    c.kind == Thread && c.pc == Run && c.nest == 0 && g.depth == 0 && g.intDepth == 0
  }

  predicate InSection(c: Context, g: Globals) {
    c.kind == Thread && c.pc == Run && c.nest == 1 && g.depth == 1 && g.intDepth == 0
  }

  lemma Lock(s: System, c: Context, g: Globals, l: Ledger, len: nat) returns (c': Context, g': Globals)
    requires Reaches(s, Solo(c, Locking(len), g, l)) && Outside(c, g)
    ensures InSection(c', g')
    ensures Reaches(s, Solo(c', Checking(Request(l.nextReq, len)), g', l.(nextReq := l.nextReq + 1)))
  {
    hide Reaches, Solo;
    var p := Locking(len);
    SoloAct(s, c, p, g, l, ReadFlags);
    var c1, g1 := NextContext(c, g, ReadFlags), NextGlobals(c, g, ReadFlags);
    SoloAct(s, c1, p, g1, l, Mask);
    var c2, g2 := NextContext(c1, g1, Mask), NextGlobals(c1, g1, Mask);
    SoloAct(s, c2, p, g2, l, Decide);
    var c3, g3 := NextContext(c2, g2, Decide), NextGlobals(c2, g2, Decide);
    SoloAct(s, c3, p, g3, l, Save);
    var c4, g4 := NextContext(c3, g3, Save), NextGlobals(c3, g3, Save);
    SoloAct(s, c4, p, g4, l, Count);
    c', g' := NextContext(c4, g4, Count), NextGlobals(c4, g4, Count);
  }

  lemma Unlock(s: System, c: Context, g: Globals, l: Ledger) returns (c': Context, g': Globals)
    requires Reaches(s, Solo(c, Unlocking, g, l)) && InSection(c, g)
    ensures Outside(c', g') && Reaches(s, Solo(c', Idle, g', l))
  {
    hide Reaches, Solo;
    SoloAct(s, c, Unlocking, g, l, Check);
    var c1, g1 := NextContext(c, g, Check), NextGlobals(c, g, Check);
    SoloAct(s, c1, Unlocking, g1, l, Uncount);
    var c2, g2 := NextContext(c1, g1, Uncount), NextGlobals(c1, g1, Uncount);
    SoloAct(s, c2, Unlocking, g2, l, Test);
    var c3, g3 := NextContext(c2, g2, Test), NextGlobals(c2, g2, Test);
    SoloAct(s, c3, Unlocking, g3, l, Restore);
    c', g' := NextContext(c3, g3, Restore), NextGlobals(c3, g3, Restore);
  }

  /** From idle into the loop, with entropy collection failing if it is tried. */
  lemma Begin(s: System, c: Context, g: Globals, l: Ledger, len: nat) returns (c': Context, g': Globals, l': Ledger)
    requires Reaches(s, Solo(c, Idle, g, l)) && Outside(c, g)
    ensures InSection(c', g') && Reaches(s, Solo(c', Loading(Request(l.nextReq, len)), g', l'))
    ensures l'.gen == l.gen
    ensures l'.grants == l.grants + [Grant(l.nextReq, l.gen.bytes, l.gen.since, l.gen.bytes < RESEED_LIMIT)]
  {
    hide Reaches, Solo;
    SoloGen(s, c, Idle, g, l, Want(len));
    c', g' := Lock(s, c, g, l, len);
    var r, l1 := Request(l.nextReq, len), l.(nextReq := l.nextReq + 1);
    SoloGen(s, c', Checking(r), g', l1, CheckLimit(false));
    var p := GenNext(Checking(r), l1, c', g', CheckLimit(false)).0;
    SoloGen(s, c', p, g', l1, EnterLoop);
    l' := GenNext(p, l1, c', g', EnterLoop).1;
  }

  /** A request for one block, from idle to idle. */
  lemma OneRequest(s: System, c: Context, g: Globals, l: Ledger) returns (c': Context, g': Globals, l': Ledger)
    requires Reaches(s, Solo(c, Idle, g, l)) && Outside(c, g)
    ensures Outside(c', g') && Reaches(s, Solo(c', Idle, g', l'))
    ensures l'.gen.since == l.gen.since + BLOCK && l'.gen.bytes == (l.gen.bytes + BLOCK) % WORD
  {
    hide Reaches, Solo;
    var l1;
    c', g', l1 := Begin(s, c, g, l, BLOCK);
    var r := Request(l.nextReq, BLOCK);
    SoloGen(s, c', Loading(r), g', l1, Load);
    var l2 := GenNext(Loading(r), l1, c', g', Load).1;
    SoloGen(s, c', Emitting(r), g', l2, Emit);
    var l3 := GenNext(Emitting(r), l2, c', g', Emit).1;
    SoloGen(s, c', Bumping(r), g', l3, Bump);
    l' := GenNext(Bumping(r), l3, c', g', Bump).1;
    SoloGen(s, c', Loading(r.(len := 0)), g', l', Load);
    c', g' := Unlock(s, c', g', l');
  }

  lemma {:induction false} ManyRequests(s: System, c: Context, g: Globals, l: Ledger, n: nat)
    returns (c': Context, g': Globals, l': Ledger)
    requires Reaches(s, Solo(c, Idle, g, l)) && Outside(c, g) && l.gen.bytes == l.gen.since % WORD
    ensures Outside(c', g') && Reaches(s, Solo(c', Idle, g', l'))
    ensures l'.gen.since == l.gen.since + BLOCK * n && l'.gen.bytes == l'.gen.since % WORD
    decreases n
  {
    hide Reaches, Solo, Outside;
    c', g', l' := c, g, l;
    if n > 0 {
      c', g', l' := OneRequest(s, c, g, l);
      BytesOn(l.gen.since, BLOCK);
      c', g', l' := ManyRequests(s, c', g', l', n - 1);
    }
  }

  /** A boot state with one thread is of the form above. */
  lemma BootIsSolo(s: System) returns (c: Context)
    requires Start(s) && s.m.parked == []
    ensures s == Solo(c, Idle, s.m.g, s.l) && Outside(c, s.m.g) && s.l.gen.bytes == s.l.gen.since % WORD
  {
    c := s.m.stack[0];
    assert c in s.m.stack + s.m.parked && s.progs[0] in s.progs + s.parked;
    assert s.progs == [Idle] && s.m.stack == [c];
  }

  /** The last grant was given although 2^32 bytes had been generated. */
  ghost predicate PassedUnseen(s: System) {
    s.l.grants != [] && var grant := s.l.grants[|s.l.grants| - 1]; grant.ok && grant.since == WORD
  }

  lemma PassesAfter(s: System, c: Context, g: Globals, l: Ledger) returns (end: System)
    requires Reaches(s, Solo(c, Idle, g, l)) && Outside(c, g) && l.gen.since == WORD && l.gen.bytes == 0
    ensures Reaches(s, end) && PassedUnseen(end)
  {
    hide Reaches;
    var c', g', l' := Begin(s, c, g, l, BLOCK);
    end := Solo(c', Loading(Request(l.nextReq, BLOCK)), g', l');
  }

  /** From every boot state with one thread there is a run whose last request passes the test of the reseed
      limit although 2^32 bytes have been generated since the last seeding. */
  lemma LimitPassedUnseen(s: System)
    requires Start(s) && s.m.parked == [] && s.l.gen.since == 0
    ensures exists events :: Runnable(s, events) && PassedUnseen(RunAll(s, events))
  {
    hide Solo, Outside, Start, PassedUnseen, Runnable, RunAll;
    var c := BootIsSolo(s);
    assert Reaches(s, s) by { ReachesSelf(s); }
    var c', g', l' := ManyRequests(s, c, s.m.g, s.l, 0x400_0000);
    var end := PassesAfter(s, c', g', l');
  }
}
