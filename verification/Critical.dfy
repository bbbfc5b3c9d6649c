/**
 Nested critical sections, as a step relation.

 Several threads and a stack of interrupt or trap handlers share one depth counter, one saved copy of
 the interrupt flag and one interrupt-context counter. Each step is one machine-level action of
 `critical_section_enter`, `critical_section_exit`, `interrupt_context_enter`, `interrupt_context_exit`,
 of the interrupt gate or of `iret`, so an interrupt or a trap can arrive between any two of them.
 */
module Critical {

  /** Where a context stands inside the two primitives; `Run` is any other code. */
  datatype Pc =
    | Run
    | EnterRead(flags: bool)                    // EFLAGS copied into `flags`
    | EnterMasked(flags: bool)                  // cli done
    | EnterDecided(flags: bool, save: bool)     // both counters tested
    | EnterCount                                // flags saved if they had to be
    | ExitCount                                 // depth seen to be positive
    | ExitTest                                  // depth decremented
    | ExitRestore                               // both counters seen to be zero

  datatype Kind = Thread | Irq | Trap

  /** How far a handler has come: before `interrupt_context_enter`, between, after `interrupt_context_exit`. */
  datatype Phase = Arriving | Handling | Leaving

  /** A thread or a handler activation.
      `nest` counts its own open sections, `resumeIF` is the flag its iret restores, and
      `seen` is the flag it read at its last enter from nest 0. */
  datatype Context = Context(kind: Kind, id: nat, phase: Phase, pc: Pc, nest: nat, resumeIF: bool, seen: bool)

  /** The three globals of the source and the CPU's interrupt flag. */
  datatype Globals = Globals(depth: nat, saved: bool, intDepth: nat, interruptFlag: bool)

  /** `stack[0]` is the running thread and the rest are the handlers on top of it; `parked` are preempted threads. */
  datatype Machine = Machine(stack: seq<Context>, parked: seq<Context>, g: Globals)

  datatype Action =
    | Deliver(trap: bool)        // interrupt gate or exception
    | ContextEnter | ContextExit | Iret
    | SetFlag(value: bool)       // cli, sti, popfl in other code
    | Switch(next: nat)          // preemption by another thread
    | ReadFlags | Mask | Decide | Save | Count
    | Check | Uncount | Test | Restore

  const UINT32_MAX: nat := 0xFFFF_FFFF

  // ---------------------------------------------------------------- steps

  function Top(m: Machine): Context
    requires m.stack != []
  {
    m.stack[|m.stack| - 1]
  }

  function Below(m: Machine): seq<Context>
    requires m.stack != []
  {
    m.stack[..|m.stack| - 1]
  }

  /** The context can execute kernel code of its own. */
  predicate Executing(c: Context) {
    c.kind == Thread || c.phase == Handling
  }

  /** Actions of the context on top, which change that context and the globals only. */
  predicate Own(a: Action) {
    !a.Deliver? && a != Iret && !a.Switch?
  }

  predicate OwnEnabled(c: Context, g: Globals, a: Action)
    requires Own(a)
  {
    match a
    case ContextEnter => c.kind != Thread && c.phase == Arriving && g.intDepth < UINT32_MAX
    // Handlers are balanced: they close every section they opened before they leave.
    case ContextExit => c.kind != Thread && c.phase == Handling && c.pc == Run && c.nest == 0
    case SetFlag(_) => Executing(c) && c.pc == Run && g.depth == 0
    case ReadFlags => Executing(c) && c.pc == Run
    case Mask => Executing(c) && c.pc.EnterRead?
    case Decide => Executing(c) && c.pc.EnterMasked?
    case Save => Executing(c) && c.pc.EnterDecided?
    case Count => Executing(c) && c.pc.EnterCount? && g.depth < UINT32_MAX
    case Check => Executing(c) && c.pc == Run && (c.nest > 0 || g.depth == 0)
    case Uncount => Executing(c) && c.pc.ExitCount? && c.nest > 0 && g.depth > 0
    case Test => Executing(c) && c.pc.ExitTest?
    case Restore => Executing(c) && c.pc.ExitRestore?
  }

  function NextContext(c: Context, g: Globals, a: Action): Context
    requires Own(a) && OwnEnabled(c, g, a)
  {
    match a
    case ContextEnter => c.(phase := Handling)
    case ContextExit => c.(phase := Leaving)
    case SetFlag(_) => c
    case ReadFlags => c.(pc := EnterRead(g.interruptFlag), seen := if c.nest == 0 then g.interruptFlag else c.seen)
    case Mask => c.(pc := EnterMasked(c.pc.flags))
    case Decide => c.(pc := EnterDecided(c.pc.flags, g.depth == 0 && g.intDepth == 0))
    case Save => c.(pc := EnterCount)
    case Count => c.(pc := Run, nest := c.nest + 1)
    case Check => if g.depth == 0 then c else c.(pc := ExitCount)
    case Uncount => c.(pc := ExitTest, nest := c.nest - 1)
    case Test => c.(pc := if g.depth == 0 && g.intDepth == 0 then ExitRestore else Run)
    case Restore => c.(pc := Run)
  }

  function NextGlobals(c: Context, g: Globals, a: Action): Globals
    requires Own(a) && OwnEnabled(c, g, a)
  {
    match a
    case ContextEnter => g.(intDepth := g.intDepth + 1)
    case ContextExit => g.(intDepth := if g.intDepth > 0 then g.intDepth - 1 else 0)
    case SetFlag(value) => g.(interruptFlag := value)
    case Mask => g.(interruptFlag := false)
    case Save => if c.pc.save then g.(saved := c.pc.flags) else g
    case Count => g.(depth := g.depth + 1)
    case Uncount => g.(depth := g.depth - 1)
    case Restore => g.(interruptFlag := g.saved)
    case _ => g
  }

  predicate Enabled(m: Machine, a: Action)
    requires m.stack != []
  {
    match a
    case Deliver(trap) => trap || m.g.interruptFlag
    case Iret => Top(m).kind != Thread && Top(m).phase == Leaving
    case Switch(next) => |m.stack| == 1 && m.g.interruptFlag && next < |m.parked|
    case _ => OwnEnabled(Top(m), m.g, a)
  }

  function Step(m: Machine, a: Action): (m': Machine)
    requires m.stack != [] && Enabled(m, a)
  {
    match a
    case Deliver(trap) =>
      var handler := Context(if trap then Trap else Irq, 0, Arriving, Run, 0, m.g.interruptFlag, false);
      m.(stack := m.stack + [handler], g := m.g.(interruptFlag := false))
    case Iret =>
      m.(stack := Below(m), g := m.g.(interruptFlag := Top(m).resumeIF))
    case Switch(next) =>
      m.(stack := [m.parked[next]], parked := m.parked[next := Top(m)])
    case _ =>
      m.(stack := Below(m) + [NextContext(Top(m), m.g, a)], g := NextGlobals(Top(m), m.g, a))
  }

  // ---------------------------------------------------------------- invariant

  /** The sections opened by a stack of contexts and not yet closed. */
  function Open(s: seq<Context>): nat {
    if s == [] then 0 else Open(s[..|s| - 1]) + s[|s| - 1].nest
  }

  function HandlersInside(s: seq<Context>): nat {
    if s == [] then 0
    else HandlersInside(s[..|s| - 1]) + Inside(s[|s| - 1])
  }

  function Inside(c: Context): nat {
    if c.kind != Thread && c.phase == Handling then 1 else 0
  }

  /** Inside one of the primitives with interrupts already off. */
  predicate Masked(pc: Pc) {
    pc.EnterMasked? || pc.EnterDecided? || pc.EnterCount? || pc.ExitTest? || pc.ExitRestore?
  }

  /** `flag` is the interrupt flag seen by the top of `s`. Wherever a section is open below or at a
      context, that context has interrupts off, and only traps arrive above it. */
  predicate Shielded(s: seq<Context>, flag: bool) {
    s != [] &&
    var top := s[|s| - 1];
    var below := s[..|s| - 1];
    && (Open(s) > 0 || Masked(top.pc) ==> !flag)
    && (top.pc.ExitCount? ==> top.nest > 0)
    && (below == [] <==> top.kind == Thread)
    && (below != [] ==>
          && Shielded(below, top.resumeIF)
          && HandlerOk(top)
          && (Open(below) > 0 ==> top.kind == Trap))
  }

  /** A handler never decides to save or to restore the flags, and works only while it is handling. */
  predicate HandlerOk(c: Context) {
    && !c.pc.ExitRestore?
    && (c.pc.EnterDecided? ==> !c.pc.save)
    && (c.phase != Handling ==> c.pc == Run && c.nest == 0)
  }

  /** What the running thread relies on: while it has a section open, or is about to open or to leave
      its outermost one, the saved flag is the one it read on entry. */
  predicate ThreadOk(c: Context, saved: bool) {
    && c.kind == Thread
    && (c.nest > 0 ==> saved == c.seen)
    && (c.pc.EnterRead? && c.nest == 0 ==> c.pc.flags == c.seen)
    && (c.pc.EnterMasked? && c.nest == 0 ==> c.pc.flags == c.seen)
    && (c.pc.EnterDecided? ==> c.pc.save == (c.nest == 0) && (c.nest == 0 ==> c.pc.flags == c.seen))
    && (c.pc.EnterCount? ==> saved == c.seen)
    && (c.pc.ExitTest? ==> saved == c.seen)
    && (c.pc.ExitRestore? ==> saved == c.seen && c.nest == 0)
  }

  /** A preempted thread holds nothing and is not inside a masked window. */
  predicate ParkedOk(c: Context) {
    && c.kind == Thread && c.nest == 0 && !Masked(c.pc) && !c.pc.ExitCount?
    && (c.pc.EnterRead? ==> c.pc.flags == c.seen)
  }

  ghost predicate Inv(m: Machine) {
    && m.stack != []
    && Shielded(m.stack, m.g.interruptFlag)
    && ThreadOk(m.stack[0], m.g.saved)
    && m.g.depth == Open(m.stack)
    && m.g.intDepth == HandlersInside(m.stack)
    && (forall c :: c in m.parked ==> ParkedOk(c))
  }

  /** The boot state: counters zero, any number of threads, none inside a primitive. */
  ghost predicate Initial(m: Machine) {
    && |m.stack| == 1
    && (forall c :: c in m.stack + m.parked ==> c.kind == Thread && c.pc == Run && c.nest == 0)
    && m.g.depth == 0 && m.g.intDepth == 0
  }

  lemma InitialInv(m: Machine)
    requires Initial(m)
    ensures Inv(m)
  {
    assert m.stack[0] in m.stack + m.parked;
    assert m.stack[..0] == [];
    assert Open(m.stack[..0]) == 0 && HandlersInside(m.stack[..0]) == 0;
  }

  lemma PushPop(s: seq<Context>, c: Context)
    ensures (s + [c])[..|s|] == s
    ensures Open(s + [c]) == Open(s) + c.nest && HandlersInside(s + [c]) == HandlersInside(s) + Inside(c)
  {
    assert (s + [c])[..|s|] == s;
  }

  /** What the invariant says about the context on top and the globals. */
  predicate LocalOk(c: Context, g: Globals, alone: bool) {
    && (g.depth > 0 || Masked(c.pc) ==> !g.interruptFlag)
    && (c.pc.ExitCount? ==> c.nest > 0)
    && g.intDepth >= Inside(c)
    && (if alone
        then ThreadOk(c, g.saved) && g.depth == c.nest && g.intDepth == 0
        else c.kind != Thread && HandlerOk(c) && g.depth >= c.nest)
  }

  predicate Local(m: Machine) {
    m.stack != [] && LocalOk(Top(m), m.g, |m.stack| == 1)
  }

  lemma InvLocal(m: Machine)
    requires Inv(m)
    ensures Local(m)
  {
    assert m.stack == Below(m) + [Top(m)];
    PushPop(Below(m), Top(m));
    assert |m.stack| == 1 ==> Below(m) == [];
  }

  /** A step of the context on top keeps it and the globals consistent, and a handler leaves the saved flags alone. */
  lemma LocalStep(c: Context, g: Globals, alone: bool, a: Action)
    requires LocalOk(c, g, alone) && Own(a) && OwnEnabled(c, g, a)
    ensures var c', g' := NextContext(c, g, a), NextGlobals(c, g, a);
            && LocalOk(c', g', alone)
            && c'.kind == c.kind && c'.id == c.id && c'.resumeIF == c.resumeIF
            && g'.depth == g.depth + c'.nest - c.nest
            && g'.intDepth == g.intDepth + Inside(c') - Inside(c)
            && (!alone ==> g'.saved == g.saved)
  {
  }

  lemma OwnStepKeepsInv(m: Machine, a: Action)
    requires Inv(m) && Own(a) && Enabled(m, a)
    ensures Inv(Step(m, a))
  {
    var c := Top(m);
    InvLocal(m);
    LocalStep(c, m.g, |m.stack| == 1, a);
    Retop(m, NextContext(c, m.g, a), NextGlobals(c, m.g, a));
  }

  lemma Retop(m: Machine, c': Context, g': Globals)
    requires Inv(m) && LocalOk(c', g', |m.stack| == 1)
    requires c'.kind == Top(m).kind && c'.resumeIF == Top(m).resumeIF
    requires g'.depth == m.g.depth + c'.nest - Top(m).nest
    requires g'.intDepth == m.g.intDepth + Inside(c') - Inside(Top(m))
    requires |m.stack| > 1 ==> g'.saved == m.g.saved
    ensures Inv(m.(stack := Below(m) + [c'], g := g'))
  {
    hide ThreadOk, HandlerOk, Masked, Inside, ParkedOk;
    assert m.stack == Below(m) + [Top(m)];
    PushPop(Below(m), Top(m));
    PushPop(Below(m), c');
  }

  lemma DeliverKeepsInv(m: Machine, a: Action)
    requires Inv(m) && a.Deliver? && Enabled(m, a)
    ensures Inv(Step(m, a))
  {
    PushPop(m.stack, Step(m, a).stack[|m.stack|]);
  }

  lemma IretKeepsInv(m: Machine)
    requires Inv(m) && Enabled(m, Iret)
    ensures Inv(Step(m, Iret))
  {
    assert m.stack == Below(m) + [Top(m)];
    PushPop(Below(m), Top(m));
  }

  lemma SwitchKeepsInv(m: Machine, a: Action)
    requires Inv(m) && a.Switch? && Enabled(m, a)
    ensures Inv(Step(m, a))
  {
    InvLocal(m);
    var t := m.parked[a.next];
    assert t in m.parked;
    assert [t] == [] + [t];
    PushPop([], t);
  }

  /** One step of anything keeps the invariant. */
  lemma StepKeepsInv(m: Machine, a: Action)
    requires Inv(m) && Enabled(m, a)
    ensures Inv(Step(m, a))
  {
    hide Inv, Step, Enabled;
    if a.Deliver? {
      DeliverKeepsInv(m, a);
    } else if a == Iret {
      IretKeepsInv(m);
    } else if a.Switch? {
      SwitchKeepsInv(m, a);
    } else {
      OwnStepKeepsInv(m, a);
    }
  }
}
