/** Who runs next: the order of the ready list and of the waiters for a lock, over whole runs
    (src/thread/thread.c, src/thread/sync.c). */
module Turns {
  import opened Sequences
  import opened Threads
  import opened ThreadInvariants
  import opened LockSteps

  // ---------------------------------------------------------------------------------------
  // One switch.

  /** thread_yield, or a tick at the end of the time slice: the first ready thread runs, the old one is the last. */
  lemma PreemptTurns(s: Sys)
    requires Inv(s)
    ensures Preempt(s).Done?
    ensures var n := Preempt(s).value;
            && n == s.(status := n.status, running := n.running, ready := n.ready)
            && n.status.Keys == s.status.Keys
            && (forall t :: t in s.status ==>
                  n.status[t] == if t == n.running then Running else if t == s.running then Ready else s.status[t])
            && if s.ready == [] then n.running == s.running && n.ready == []
            else n.running == s.ready[0] && n.ready == s.ready[1..] + [s.running]
  {
    hide Calm, NoRepeat;
    RunningNotReady(s);
  }

  /** A thread that blocks: the first ready thread runs, the idle thread if there is none. */
  lemma BlockTurns(s: Sys, st: Status)
    requires ReadyInv(s) && OneRunning(s) && IdleInv(s) && Asleep(st) && (s.running == s.idle ==> st == Blocked)
    ensures Block(s, st).Done?
    ensures var n := Block(s, st).value;
            && n == s.(status := n.status, running := n.running, ready := n.ready)
            && n.status.Keys == s.status.Keys
            && (forall t :: t in s.status ==>
                  n.status[t] == if t == n.running then Running else if t == s.running then st else s.status[t])
            && if s.ready == [] then n.running == s.idle && n.ready == []
            else n.running == s.ready[0] && n.ready == s.ready[1..]
  {
    hide NoRepeat;
    if s.ready == [] {
      assert s.status[s.idle] != Ready && (s.status[s.idle] == Running ==> s.idle == s.running);
    }
  }

  /** A thread that ends: the same. */
  lemma ExitTurns(s: Sys)
    requires Inv(s) && Enabled(s, DoExit)
    ensures Exit(s).Done?
    ensures var n := Exit(s).value;
            if s.ready == [] then n.running == s.idle && n.ready == []
            else n.running == s.ready[0] && n.ready == s.ready[1..]
  {
    hide PcInv, LockInv, NoRepeat, HoldsNothing;
    assert s.running !in s.ready;
    WithoutNone(s.ready, s.running);
    if s.ready == [] {
      assert s.status[s.idle] != Ready && s.status[s.idle] != Running;
    }
  }

  // ---------------------------------------------------------------------------------------
  // One step.

  /** The step gives the processor to another thread. */
  predicate Switches(s: Sys, step: Step)
    requires Enabled(s, step)
  {
    match step
    case DoPreempt => true
    case DoBlock(_) => true
    case DoExit => true
    case DoAdvance =>
      (s.pc[s.running].Down? || s.pc[s.running].Retry?) && s.locks[s.pc[s.running].l].value == 0
    case _ => false
  }

  /** The step wakes a thread. */
  predicate Wakes(s: Sys, step: Step)
    requires Enabled(s, step)
  {
    match step
    case DoWake(_) => true
    case DoAdvance => s.pc[s.running].Rel3? && s.locks[s.pc[s.running].l].waiters != []
    case _ => false
  }

  /** The step is the end of lock_release for lock l. */
  predicate Frees(s: Sys, step: Step, l: nat)
    requires Enabled(s, step)
  {
    step.DoAdvance? && s.pc[s.running] == Rel3(l)
  }

  /** A switch takes the first off the ready list, a woken thread is put in front, anything else is put behind. */
  ghost predicate ReadyAfter(s: Sys, step: Step, n: Sys)
    requires Enabled(s, step)
  {
    if Switches(s, step) then
      s.ready != [] ==>
        && n.running == s.ready[0]
        && n.ready == s.ready[1..] + if step.DoPreempt? then [s.running] else []
    else
      && n.running == s.running
      && if Wakes(s, step) then
           && |n.ready| == |s.ready| + 1 && n.ready[1..] == s.ready
           && (step.DoWake? ==> n.ready[0] == step.t)
         else |n.ready| >= |s.ready| && n.ready[..|s.ready|] == s.ready
  }

  lemma ReadyStep(s: Sys, step: Step)
    requires Inv(s) && Enabled(s, step) && Next(s, step).Done?
    ensures ReadyAfter(s, step, Next(s, step).value)
  {
    hide Calm, ReadyInv, OneRunning, Preempt, Block, Exit, Advance;
    match step {
      case DoPreempt => PreemptTurns(s);
      case DoBlock(st) =>
        CalmFacts(s);
        BlockTurns(s, st);
      case DoExit => ExitTurns(s);
      case DoReap(t) => ReapReady(s, t);
      case DoAdvance => AdvanceReady(s);
      case _ =>
    }
  }

  lemma CalmFacts(s: Sys)
    requires Calm(s)
    ensures IdleInv(s) && PcInv(s)
  {
  }

  lemma ReapReady(s: Sys, t: Tid)
    requires ReadyInv(s) && t in s.status && s.status[t] == Hanging
    ensures Gone(s, t).ready == s.ready
  {
    assert t !in s.ready;
    WithoutNone(s.ready, t);
  }

  lemma AdvanceReady(s: Sys)
    requires Inv(s) && Enabled(s, DoAdvance) && Advance(s).Done?
    ensures ReadyAfter(s, DoAdvance, Advance(s).value)
  {
    hide LockInv, ReadyInv, OneRunning, IdleInv, PcInv, Block, NoRepeat;
    var l := s.pc[s.running].l;
    if Switches(s, DoAdvance) {
      RunningNotIdle(s);
      var m := SetPc(SetLock(s, l, s.locks[l].(waiters := s.locks[l].waiters + [s.running])), Retry(l));
      SameScheduler(s, m);
      BlockTurns(m, Blocked);
    }
  }

  // ---------------------------------------------------------------------------------------
  // Runs.

  function SwitchCount(s: Sys, steps: seq<Step>): nat
    requires Legal(s, steps)
    decreases |steps|
  {
    if steps == [] then 0
    else
      (if Switches(s, steps[0]) then 1 else 0)
      + if Next(s, steps[0]).Done? then SwitchCount(Next(s, steps[0]).value, steps[1..]) else 0
  }

  function WakeCount(s: Sys, steps: seq<Step>): nat
    requires Legal(s, steps)
    decreases |steps|
  {
    if steps == [] then 0
    else
      (if Wakes(s, steps[0]) then 1 else 0)
      + if Next(s, steps[0]).Done? then WakeCount(Next(s, steps[0]).value, steps[1..]) else 0
  }

  /** The thread is on the processor at some time. */
  predicate RunsIn(s: Sys, steps: seq<Step>, t: Tid)
    requires Legal(s, steps)
    decreases |steps|
  {
    s.running == t ||
    (steps != [] && Next(s, steps[0]).Done? && RunsIn(Next(s, steps[0]).value, steps[1..], t))
  }

  /** No ready thread is passed over: at place k of the list it runs after k + 1 switches, if nobody is woken, and
      after one more for each wakeup, since who is woken is put in front. */
  lemma {:induction false} TurnComes(s: Sys, steps: seq<Step>, t: Tid, k: nat)
    requires Inv(s) && Legal(s, steps) && k < |s.ready| && s.ready[k] == t
    requires SwitchCount(s, steps) > k + WakeCount(s, steps)
    ensures RunsIn(s, steps, t)
    decreases |steps|
  {
    hide Inv, Next, Enabled, Switches, Wakes;
    if steps != [] {
      StepKeeps(s, steps[0]);
      ReadyStep(s, steps[0]);
      var n := Next(s, steps[0]).value;
      if Switches(s, steps[0]) {
        if k > 0 {
          NotBoth(s, steps[0]);
          TurnComes(n, steps[1..], t, k - 1);
        }
      } else if Wakes(s, steps[0]) {
        TurnComes(n, steps[1..], t, k + 1);
      } else {
        TurnComes(n, steps[1..], t, k);
      }
    }
  }

  lemma NotBoth(s: Sys, step: Step)
    requires Enabled(s, step)
    ensures !(Switches(s, step) && Wakes(s, step))
  {
  }

  // ---------------------------------------------------------------------------------------
  // Waiters for a lock.

  /** sema_up takes the first waiter, sema_down puts the caller behind the others. */
  ghost predicate WaitersAfter(s: Sys, step: Step, n: Sys, l: nat)
    requires Enabled(s, step) && l < |s.locks|
  {
    && |n.locks| == |s.locks|
    && if Frees(s, step, l) && s.locks[l].waiters != [] then
         n.locks[l].waiters == s.locks[l].waiters[1..] && n.ready != [] && n.ready[0] == s.locks[l].waiters[0]
       else if Switches(s, step) && step.DoAdvance? && s.pc[s.running].l == l then
         n.locks[l].waiters == s.locks[l].waiters + [s.running]
       else n.locks[l].waiters == s.locks[l].waiters
  }

  lemma WaitersStep(s: Sys, step: Step, l: nat)
    requires Inv(s) && Enabled(s, step) && Next(s, step).Done? && l < |s.locks|
    ensures WaitersAfter(s, step, Next(s, step).value, l)
  {
    hide Inv, Advance, Without;
    if step.DoAdvance? {
      WaitersAdvance(s, l);
    }
  }

  lemma WaitersAdvance(s: Sys, l: nat)
    requires Enabled(s, DoAdvance) && Advance(s).Done? && l < |s.locks|
    ensures WaitersAfter(s, DoAdvance, Advance(s).value, l)
  {
    hide Up, Block;
    var a := s.pc[s.running].l;
    if s.pc[s.running].Rel3? {
      UpWaiters(s, a);
    } else if Switches(s, DoAdvance) {
      BlockLocks(SetPc(SetLock(s, a, s.locks[a].(waiters := s.locks[a].waiters + [s.running])), Retry(a)));
    }
  }

  lemma UpWaiters(s: Sys, l: nat)
    requires l < |s.locks| && Up(s, l).Done?
    ensures var n := Up(s, l).value;
            && n.locks == s.locks[l := n.locks[l]]
            && if s.locks[l].waiters == [] then n.locks[l].waiters == []
               else n.locks[l].waiters == s.locks[l].waiters[1..] && n.ready == [s.locks[l].waiters[0]] + s.ready
  {
  }

  lemma BlockLocks(s: Sys)
    ensures Block(s, Blocked).Done? ==> Block(s, Blocked).value.locks == s.locks
  {
  }

  function FreeCount(s: Sys, steps: seq<Step>, l: nat): nat
    requires Legal(s, steps)
    decreases |steps|
  {
    if steps == [] then 0
    else
      (if Frees(s, steps[0], l) then 1 else 0)
      + if Next(s, steps[0]).Done? then FreeCount(Next(s, steps[0]).value, steps[1..], l) else 0
  }

  /** The thread is ready, in front of all others, at some time. */
  predicate FirstIn(s: Sys, steps: seq<Step>, t: Tid)
    requires Legal(s, steps)
    decreases |steps|
  {
    (s.ready != [] && s.ready[0] == t) ||
    (steps != [] && Next(s, steps[0]).Done? && FirstIn(Next(s, steps[0]).value, steps[1..], t))
  }

  /** Waiters are woken in the order in which they came: the one at place k by the k + 1st release. */
  lemma {:induction false} WaiterComes(s: Sys, steps: seq<Step>, t: Tid, l: nat, k: nat)
    requires Inv(s) && Legal(s, steps) && l < |s.locks| && k < |s.locks[l].waiters| && s.locks[l].waiters[k] == t
    requires FreeCount(s, steps, l) > k
    ensures FirstIn(s, steps, t)
    decreases |steps|
  {
    hide Inv, Next, Enabled, Frees, Switches;
    if steps != [] {
      StepKeeps(s, steps[0]);
      WaitersStep(s, steps[0], l);
      var n := Next(s, steps[0]).value;
      if Frees(s, steps[0], l) {
        if k > 0 {
          WaiterComes(n, steps[1..], t, l, k - 1);
        } else {
          assert FirstIn(n, steps[1..], t);
        }
      } else {
        WaiterComes(n, steps[1..], t, l, k);
      }
    }
  }
}
