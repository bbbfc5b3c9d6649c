/**
 The sequential view of the critical section: the four globals of `critical.h` and the CPU's
 interrupt flag as one object, and its link to the step relation of module Critical.
 */
module Cpus {
  import opened Critical

  /** Both counters at zero: the context that enters next is a thread's outermost enter. */
  predicate Outermost(g: Globals) {
    g.depth == 0 && g.intDepth == 0
  }

  /** Interrupts are off inside sections and inside handlers. */
  predicate Consistent(g: Globals) {
    g.depth > 0 || g.intDepth > 0 ==> !g.interruptFlag
  }

  function Entered(g: Globals): Globals {
    Globals(g.depth + 1, if Outermost(g) then g.interruptFlag else g.saved, g.intDepth, false)
  }

  function Exited(g: Globals): Globals {
    if g.depth == 0 then g
    else if g.depth == 1 && g.intDepth == 0 then g.(depth := 0, interruptFlag := g.saved)
    else g.(depth := g.depth - 1)
  }

  /** Enter followed by exit leaves no trace but the saved copy of the flag. */
  predicate Balanced(before: Globals, after: Globals) {
    after == before.(saved := if Outermost(before) then before.interruptFlag else before.saved)
  }

  /** It does so exactly when interrupts were off inside sections and handlers. */
  lemma EnterExitBalances(g: Globals)
    ensures Balanced(g, Exited(Entered(g))) <==> Consistent(g)
  {
  }

  class Cpu {
    var depth: nat
    var saved: bool
    var intDepth: nat
    var interruptFlag: bool

    constructor ()
      ensures State() == Globals(0, false, 0, true)
    {
      depth, saved, intDepth, interruptFlag := 0, false, 0, true;
    }

    ghost function State(): Globals
      reads this
    {
      Globals(depth, saved, intDepth, interruptFlag)
    }

    method CriticalSectionEnter()
      requires depth < UINT32_MAX   // documented as never approached: it would need 2^32 live frames
      modifies this
      ensures State() == Entered(old(State()))
    {
      var flags := interruptFlag;
      interruptFlag := false;
      if depth == 0 && intDepth == 0 {
        saved := flags;
      }
      depth := depth + 1;
    }

    method CriticalSectionExit()
      modifies this
      ensures State() == Exited(old(State()))
    {
      if depth == 0 {
        return;
      }
      depth := depth - 1;
      if depth == 0 && intDepth == 0 {
        interruptFlag := saved;
      }
    }
  }

  // ---------------------------------------------------------------- link to the step relation

  /** The context on top, alone with the globals, takes the actions one after the other. */
  predicate CanRun(c: Context, g: Globals, actions: seq<Action>)
    decreases |actions|
  {
    if actions == [] then true
    else
      && Own(actions[0]) && OwnEnabled(c, g, actions[0])
      && CanRun(NextContext(c, g, actions[0]), NextGlobals(c, g, actions[0]), actions[1..])
  }

  function RunOwn(c: Context, g: Globals, actions: seq<Action>): (Context, Globals)
    requires CanRun(c, g, actions)
    decreases |actions|
  {
    if actions == [] then (c, g)
    else RunOwn(NextContext(c, g, actions[0]), NextGlobals(c, g, actions[0]), actions[1..])
  }

  /** The steps of an enter. */
  function EnterActions(): seq<Action> {
    [ReadFlags] + ([Mask] + ([Decide] + ([Save] + ([Count] + []))))
  }

  lemma CountStep(c: Context, g: Globals)
    requires Executing(c) && c.pc.EnterCount? && g.depth < UINT32_MAX
    ensures CanRun(c, g, [Count] + [])
    ensures RunOwn(c, g, [Count] + []) == (c.(pc := Run, nest := c.nest + 1), g.(depth := g.depth + 1))
  {
    hide CanRun, RunOwn;
    RunNone(NextContext(c, g, Count), NextGlobals(c, g, Count));
    RunOne(c, g, Count, []);
  }

  lemma SaveSteps(c: Context, g: Globals)
    requires Executing(c) && c.pc.EnterDecided? && g.depth < UINT32_MAX
    ensures CanRun(c, g, [Save] + ([Count] + []))
    ensures RunOwn(c, g, [Save] + ([Count] + []))
         == (c.(pc := Run, nest := c.nest + 1),
             g.(depth := g.depth + 1, saved := if c.pc.save then c.pc.flags else g.saved))
  {
    hide CanRun, RunOwn;
    CountStep(NextContext(c, g, Save), NextGlobals(c, g, Save));
    RunOne(c, g, Save, [Count] + []);
  }

  /** The part of an enter that runs with interrupts off. */
  lemma MaskedSteps(c: Context, g: Globals)
    requires Executing(c) && c.pc.EnterMasked? && g.depth < UINT32_MAX
    ensures CanRun(c, g, [Decide] + ([Save] + ([Count] + [])))
    ensures RunOwn(c, g, [Decide] + ([Save] + ([Count] + [])))
         == (c.(pc := Run, nest := c.nest + 1),
             g.(depth := g.depth + 1, saved := if Outermost(g) then c.pc.flags else g.saved))
  {
    hide CanRun, RunOwn;
    SaveSteps(NextContext(c, g, Decide), NextGlobals(c, g, Decide));
    RunOne(c, g, Decide, [Save] + ([Count] + []));
  }

  /** The five steps of an enter have the effect of `CriticalSectionEnter`. */
  lemma EnterSteps(c: Context, g: Globals)
    requires Executing(c) && c.pc == Run && g.depth < UINT32_MAX
    ensures CanRun(c, g, EnterActions())
    ensures var (c', g') := RunOwn(c, g, EnterActions());
            g' == Entered(g) && c'.pc == Run && c'.nest == c.nest + 1
  {
    hide CanRun, RunOwn;
    var c1, g1 := NextContext(c, g, ReadFlags), NextGlobals(c, g, ReadFlags);
    var c2, g2 := NextContext(c1, g1, Mask), NextGlobals(c1, g1, Mask);
    MaskedSteps(c2, g2);
    RunOne(c1, g1, Mask, [Decide] + ([Save] + ([Count] + [])));
    RunOne(c, g, ReadFlags, [Mask] + ([Decide] + ([Save] + ([Count] + []))));
  }

  lemma RunNone(c: Context, g: Globals)
    ensures CanRun(c, g, []) && RunOwn(c, g, []) == (c, g)
  {
  }

  lemma RunOne(c: Context, g: Globals, a: Action, rest: seq<Action>)
    requires Own(a) && OwnEnabled(c, g, a)
    requires CanRun(NextContext(c, g, a), NextGlobals(c, g, a), rest)
    ensures CanRun(c, g, [a] + rest)
    ensures RunOwn(c, g, [a] + rest) == RunOwn(NextContext(c, g, a), NextGlobals(c, g, a), rest)
  {
    assert ([a] + rest)[1..] == rest;
  }

  /** The steps of an exit: only a thread's outermost exit goes on to restore the flag. */
  function ExitActions(g: Globals): seq<Action> {
    [Check] + ([Uncount] + ([Test] + (if g.depth == 1 && g.intDepth == 0 then [Restore] + [] else [])))
  }

  lemma TestSteps(c: Context, g: Globals)
    requires Executing(c) && c.pc.ExitTest?
    ensures var rest := if Outermost(g) then [Restore] + [] else [];
            && CanRun(c, g, [Test] + rest)
            && RunOwn(c, g, [Test] + rest) == (c.(pc := Run), if Outermost(g) then g.(interruptFlag := g.saved) else g)
  {
    hide CanRun, RunOwn;
    var c1, g1 := NextContext(c, g, Test), NextGlobals(c, g, Test);
    if Outermost(g) {
      RunNone(NextContext(c1, g1, Restore), NextGlobals(c1, g1, Restore));
      RunOne(c1, g1, Restore, []);
      RunOne(c, g, Test, [Restore] + []);
    } else {
      RunNone(c1, g1);
      RunOne(c, g, Test, []);
    }
  }

  /** The steps of an exit from an open section have the effect of `CriticalSectionExit`. */
  lemma ExitSteps(c: Context, g: Globals)
    requires Executing(c) && c.pc == Run && 0 < c.nest <= g.depth
    ensures CanRun(c, g, ExitActions(g))
    ensures var (c', g') := RunOwn(c, g, ExitActions(g));
            g' == Exited(g) && c'.pc == Run && c'.nest == c.nest - 1
  {
    hide CanRun, RunOwn;
    var c1, g1 := NextContext(c, g, Check), NextGlobals(c, g, Check);
    var c2, g2 := NextContext(c1, g1, Uncount), NextGlobals(c1, g1, Uncount);
    var rest := if Outermost(g2) then [Restore] + [] else [];
    TestSteps(c2, g2);
    RunOne(c1, g1, Uncount, [Test] + rest);
    RunOne(c, g, Check, [Uncount] + ([Test] + rest));
  }
}
