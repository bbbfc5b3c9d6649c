/** Whole runs of the critical-section machine. */
module CriticalRuns {
  import opened Critical

  // ---------------------------------------------------------------- runs

  /** The actions can be taken one after the other from `m`. */
  predicate Possible(m: Machine, actions: seq<Action>)
    decreases |actions|, 0
  {
    actions == [] ||
    var last := |actions| - 1;
    && Possible(m, actions[..last])
    && After(m, actions[..last]).stack != []
    && Enabled(After(m, actions[..last]), actions[last])
  }

  function After(m: Machine, actions: seq<Action>): Machine
    requires Possible(m, actions)
    decreases |actions|, 1
  {
    if actions == [] then m
    else Step(After(m, actions[..|actions| - 1]), actions[|actions| - 1])
  }

  lemma {:induction false} RunKeepsInv(m: Machine, actions: seq<Action>)
    requires Inv(m) && Possible(m, actions)
    ensures Inv(After(m, actions))
    decreases |actions|
  {
    if actions != [] {
      var last := |actions| - 1;
      RunKeepsInv(m, actions[..last]);
      StepKeepsInv(After(m, actions[..last]), actions[last]);
    }
  }

  /** Whatever interrupts, traps, preemptions and nested sections happened: while any section is open,
      interrupts are off. */
  lemma InterruptsOffInside(m: Machine, actions: seq<Action>)
    requires Initial(m) && Possible(m, actions)
    ensures After(m, actions).g.depth > 0 ==> !After(m, actions).g.interruptFlag
  {
    InitialInv(m);
    RunKeepsInv(m, actions);
  }

  /** Nothing but a trap can run on top of a context that has a section open. */
  lemma {:induction false} OnlyTrapsAbove(s: seq<Context>, flag: bool, i: nat, j: nat)
    requires Shielded(s, flag) && i < j < |s| && s[i].nest > 0
    ensures s[j].kind == Trap
    decreases |s|
  {
    var below := s[..|s| - 1];
    if j < |s| - 1 {
      OnlyTrapsAbove(below, s[|s| - 1].resumeIF, i, j);
    } else {
      OpenAtLeast(below, i);
    }
  }

  lemma {:induction false} OpenAtLeast(s: seq<Context>, i: nat)
    requires i < |s|
    ensures Open(s) >= s[i].nest
  {
    if i < |s| - 1 {
      OpenAtLeast(s[..|s| - 1], i);
    }
  }

  /** A handler never changes the saved flags. */
  lemma HandlersKeepSaved(m: Machine, a: Action)
    requires Inv(m) && |m.stack| > 1 && Enabled(m, a)
    ensures Step(m, a).g.saved == m.g.saved
  {
    if Own(a) {
      InvLocal(m);
      LocalStep(Top(m), m.g, |m.stack| == 1, a);
    }
  }

  // ---------------------------------------------------------------- excursions

  /** `actions` starts with the delivery of an interrupt or trap and ends with its own iret. */
  predicate Excursion(m: Machine, actions: seq<Action>) {
    && Possible(m, actions)
    && |actions| > 1 && actions[0].Deliver?
    && |After(m, actions).stack| == |m.stack|
    && (forall k {:trigger actions[..k]} :: 0 < k < |actions| ==>
        Possible(m, actions[..k]) && |After(m, actions[..k]).stack| > |m.stack|)
  }

  /** While the handlers of an excursion run, everything below them stands still. */
  lemma {:induction false} BelowStandsStill(m: Machine, actions: seq<Action>)
    requires Inv(m) && Possible(m, actions) && actions != [] && actions[0].Deliver?
    requires forall k {:trigger actions[..k]} :: 0 < k <= |actions| ==>
      Possible(m, actions[..k]) && |After(m, actions[..k]).stack| > |m.stack|
    ensures var m' := After(m, actions);
            && |m'.stack| > |m.stack|
            && m'.stack[..|m.stack|] == m.stack && m'.stack[|m.stack|].resumeIF == m.g.interruptFlag
            && m'.g.saved == m.g.saved && m'.parked == m.parked
    decreases |actions|
  {
    var last := |actions| - 1;
    assert actions[..|actions|] == actions;
    var before := After(m, actions[..last]);
    if last == 0 {
      assert actions[..0] == [];
    } else {
      forall k {:trigger actions[..last][..k]} | 0 < k <= last
        ensures Possible(m, actions[..last][..k]) && |After(m, actions[..last][..k]).stack| > |m.stack|
      {
        assert actions[..last][..k] == actions[..k];
      }
      assert actions[..last][0] == actions[0];
      BelowStandsStill(m, actions[..last]);
      RunKeepsInv(m, actions[..last]);
      HandlersKeepSaved(before, actions[last]);
      OneStepAbove(before, actions[last], |m.stack|);
    }
  }

  lemma OneStepAbove(m: Machine, a: Action, n: nat)
    requires Inv(m) && Enabled(m, a) && 0 < n < |m.stack| && |Step(m, a).stack| > n
    ensures var m' := Step(m, a);
            m'.stack[..n] == m.stack[..n] && m'.stack[n].resumeIF == m.stack[n].resumeIF && m'.parked == m.parked
  {
    if Own(a) {
      InvLocal(m);
      LocalStep(Top(m), m.g, |m.stack| == 1, a);
    }
  }

  /** An interrupt or trap, with everything nested inside it, is invisible to what it interrupted. */
  lemma ExcursionIsInvisible(m: Machine, actions: seq<Action>)
    requires Inv(m) && Excursion(m, actions)
    ensures After(m, actions) == m
  {
    var last := |actions| - 1;
    var inner := actions[..last];
    assert Possible(m, inner);
    forall k {:trigger inner[..k]} | 0 < k <= |inner|
      ensures Possible(m, inner[..k]) && |After(m, inner[..k]).stack| > |m.stack|
    {
      assert inner[..k] == actions[..k];
    }
    BelowStandsStill(m, inner);
    var before := After(m, inner);
    RunKeepsInv(m, inner);
    RunKeepsInv(m, actions);
    LastIsIret(before, actions[last], |m.stack|);
    SameMachine(m, After(m, actions));
  }

  lemma LastIsIret(m: Machine, a: Action, n: nat)
    requires Inv(m) && Enabled(m, a) && 0 < n < |m.stack| && |Step(m, a).stack| == n
    ensures a == Iret && |m.stack| == n + 1
    ensures Step(m, a).stack == m.stack[..n] && Step(m, a).g.interruptFlag == m.stack[n].resumeIF
  {
  }

  /** The invariant determines the two counters. */
  lemma SameMachine(m: Machine, m': Machine)
    requires Inv(m) && Inv(m')
    requires m.stack == m'.stack && m.parked == m'.parked && m.g.saved == m'.g.saved
    requires m.g.interruptFlag == m'.g.interruptFlag
    ensures m == m'
  {
  }

  // ---------------------------------------------------------------- the flag that comes back

  /** The step reads EFLAGS for an enter that thread `id` makes with no section open. */
  predicate OuterRead(m: Machine, a: Action, id: nat) {
    a == ReadFlags && |m.stack| == 1 && m.stack[0].id == id && m.stack[0].nest == 0
  }

  /** The position of the last outermost enter of thread `id` in the run, or -1. */
  function LastEnter(m: Machine, actions: seq<Action>, id: nat): (k: int)
    requires Possible(m, actions)
    ensures -1 <= k < |actions|
    decreases |actions|
  {
    if actions == [] then -1
    else
      var last := |actions| - 1;
      if OuterRead(After(m, actions[..last]), actions[last], id) then last
      else LastEnter(m, actions[..last], id)
  }

  /** The interrupt flag at that position. */
  ghost predicate EnteredWith(m: Machine, actions: seq<Action>, id: nat, flag: bool)
    requires Possible(m, actions)
  {
    var k := LastEnter(m, actions, id);
    0 <= k && Possible(m, actions[..k]) && After(m, actions[..k]).g.interruptFlag == flag
  }

  ghost predicate DistinctThreads(m: Machine) {
    && |m.stack| > 0
    && (forall i :: 0 <= i < |m.parked| ==> m.parked[i].id != m.stack[0].id)
    && (forall i, j :: 0 <= i < j < |m.parked| ==> m.parked[i].id != m.parked[j].id)
  }

  /** What a context remembers is what the run shows. */
  ghost predicate Remembers(m: Machine, actions: seq<Action>, c: Context)
    requires Possible(m, actions)
  {
    c.pc != Run || c.nest > 0 ==> EnteredWith(m, actions, c.id, c.seen)
  }

  lemma EnteredStays(m: Machine, actions: seq<Action>, id: nat, flag: bool)
    requires actions != [] && Possible(m, actions)
    requires !OuterRead(After(m, actions[..|actions| - 1]), actions[|actions| - 1], id)
    requires EnteredWith(m, actions[..|actions| - 1], id, flag)
    ensures EnteredWith(m, actions, id, flag)
  {
    var k := LastEnter(m, actions, id);
    assert actions[..|actions| - 1][..k] == actions[..k];
  }

  lemma {:induction false} SeenIsEntered(m: Machine, actions: seq<Action>)
    requires Initial(m) && DistinctThreads(m) && Possible(m, actions)
    ensures var m' := After(m, actions);
            && DistinctThreads(m')
            && Remembers(m, actions, m'.stack[0])
            && (forall i :: 0 <= i < |m'.parked| ==> Remembers(m, actions, m'.parked[i]))
    decreases |actions|
  {
    InitialInv(m);
    if actions == [] {
      assert m.stack[0] in m.stack + m.parked;
      forall i | 0 <= i < |m.parked| ensures Remembers(m, actions, m.parked[i]) {
        assert m.parked[i] in m.stack + m.parked;
      }
    } else {
      var last := |actions| - 1;
      SeenIsEntered(m, actions[..last]);
      RunKeepsInv(m, actions[..last]);
      SeenStep(m, actions);
    }
  }

  lemma SeenStep(m: Machine, actions: seq<Action>)
    requires actions != [] && Possible(m, actions)
    requires var before := After(m, actions[..|actions| - 1]);
             && Inv(before) && DistinctThreads(before)
             && Remembers(m, actions[..|actions| - 1], before.stack[0])
             && (forall i :: 0 <= i < |before.parked| ==> Remembers(m, actions[..|actions| - 1], before.parked[i]))
    ensures var m' := After(m, actions);
            && DistinctThreads(m')
            && Remembers(m, actions, m'.stack[0])
            && (forall i :: 0 <= i < |m'.parked| ==> Remembers(m, actions, m'.parked[i]))
  {
    var last := |actions| - 1;
    var before, a := After(m, actions[..last]), actions[last];
    var m' := After(m, actions);
    ThreadsAfter(before, a);
    var t := before.stack[0];
    if OuterRead(before, a, t.id) {
      assert EnteredWith(m, actions, t.id, before.g.interruptFlag);
    } else if t.pc != Run || t.nest > 0 {
      EnteredStays(m, actions, t.id, t.seen);
    }
    forall i | 0 <= i < |before.parked| ensures Remembers(m, actions, before.parked[i]) {
      var p := before.parked[i];
      if p.pc != Run || p.nest > 0 {
        EnteredStays(m, actions, p.id, p.seen);
      }
    }
    if a.Switch? {
      assert Remembers(m, actions, before.stack[0]);
    }
  }

  /** How a step changes the threads: one may be replaced by its own next version, or two change places. */
  lemma ThreadsAfter(m: Machine, a: Action)
    requires Inv(m) && DistinctThreads(m) && Enabled(m, a)
    ensures var m' := Step(m, a);
            var t, t' := m.stack[0], m'.stack[0];
            && DistinctThreads(m')
            && (a.Switch? ==> t' == m.parked[a.next] && m'.parked == m.parked[a.next := t])
            && (!a.Switch? ==>
                  && m'.parked == m.parked && t'.id == t.id
                  && (t'.seen == t.seen || OuterRead(m, a, t.id))
                  && (OuterRead(m, a, t.id) ==> t'.seen == m.g.interruptFlag)
                  && (t'.pc != Run || t'.nest > 0 ==> t.pc != Run || t.nest > 0 || OuterRead(m, a, t.id)))
  {
    InvLocal(m);
    if Own(a) {
      LocalStep(Top(m), m.g, |m.stack| == 1, a);
    }
  }

  /** The outermost exit of a thread gives back exactly the interrupt flag that its matching enter read. */
  lemma ExitGivesBackFlag(m: Machine, actions: seq<Action>)
    requires Initial(m) && DistinctThreads(m) && Possible(m, actions + [Restore])
    ensures Possible(m, actions) && |After(m, actions).stack| == 1
    ensures EnteredWith(m, actions, After(m, actions).stack[0].id, After(m, actions + [Restore]).g.interruptFlag)
  {
    assert (actions + [Restore])[..|actions|] == actions;
    InitialInv(m);
    RunKeepsInv(m, actions);
    InvLocal(After(m, actions));
    SeenIsEntered(m, actions);
  }
}
