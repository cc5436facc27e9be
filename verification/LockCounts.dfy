/** The recursion count of a lock against the calls that were made: lock_acquire and lock_release, over whole runs
    (src/thread/sync.c). */
module LockCounts {
  import opened Results
  import opened Threads
  import opened ThreadInvariants
  import opened LockSteps

  /** On its way from the call of lock_acquire to its return. */
  predicate Acquiring(s: Sys, t: Tid, l: nat) {
    t in s.pc && (s.pc[t] == Down(l) || s.pc[t] == Retry(l) || s.pc[t] == Got(l) || s.pc[t] == Enter(l))
  }

  function Owed(s: Sys, t: Tid, l: nat): nat {
    Count(s, t, l) + if Acquiring(s, t, l) then 1 else 0
  }

  /** What a step adds to the calls of lock_acquire less those of lock_release that thread t made for lock l. */
  function Calls(s: Sys, step: Step, t: Tid, l: nat): int {
    if s.running == t && step == DoAcquire(l) then 1 else if s.running == t && step == DoRelease(l) then -1 else 0
  }

  lemma StepOwed(s: Sys, step: Step, t: Tid, l: nat)
    requires Inv(s) && Enabled(s, step) && Next(s, step).Done? && l < |s.locks|
    ensures |Next(s, step).value.locks| == |s.locks|
    ensures Owed(Next(s, step).value, t, l) == Owed(s, t, l) + Calls(s, step, t, l)
  {
    hide ReadyInv, OneRunning, IdleInv, LockInv, Preempt, Block, Unblock, Advance, Gone, Exit, Acquire, Release;
    match step {
      case DoPreempt =>
        OnlySchedules(s, Ready, t);
        Switched(s, Preempt(s), t, l);
      case DoBlock(st) =>
        OnlySchedules(s, st, t);
        Switched(s, Block(s, st), t, l);
      case DoWake(u) =>
        OnlySchedules(s, Ready, u);
        Switched(s, Unblock(s, u), t, l);
      case DoStart(u) =>
        assert u !in s.pc && Count(s, u, l) == 0 by { NoCount(s, u, l); }
      case DoExit =>
        GoneOwed(s, s.running, t, l);
        OnlySchedules(s, Ready, t);
        Switched(Gone(s, s.running), Exit(s), t, l);
      case DoReap(u) =>
        assert s.pc[u] == Out by { HangingOut(s, u); }
        GoneOwed(s, u, t, l);
      case DoAcquire(m) => AcquireOwed(s, m, t, l);
      case DoRelease(m) => ReleaseOwed(s, m, t, l);
      case DoAdvance => AdvanceOwed(s, t, l);
    }
  }

  lemma NoCount(s: Sys, t: Tid, l: nat)
    requires IdleInv(s) && PcInv(s) && t !in s.status
    ensures t !in s.pc && Count(s, t, l) == 0
  {
  }

  lemma HangingOut(s: Sys, t: Tid)
    requires IdleInv(s) && PcInv(s) && t in s.status && s.status[t] == Hanging
    ensures t in s.pc && s.pc[t] == Out
  {
  }

  /** The scheduler changes statuses, the ready list and who runs. */
  ghost predicate Rescheduled(s: Sys, r: Outcome<Sys>) {
    r.Done? ==> r.value == s.(status := r.value.status, running := r.value.running, ready := r.value.ready)
  }

  lemma OnlySchedules(s: Sys, st: Status, t: Tid)
    ensures Rescheduled(s, Preempt(s)) && Rescheduled(s, Block(s, st)) && Rescheduled(s, Unblock(s, t))
    ensures Rescheduled(Gone(s, s.running), Exit(s))
  {
    hide Gone;
  }

  /** Scheduling touches neither counts nor places in the code. */
  lemma Switched(s: Sys, r: Outcome<Sys>, t: Tid, l: nat)
    requires Rescheduled(s, r)
    ensures r.Done? ==> Owed(r.value, t, l) == Owed(s, t, l) && r.value.locks == s.locks
  {
  }

  lemma GoneOwed(s: Sys, u: Tid, t: Tid, l: nat)
    requires u in s.pc && s.pc[u] == Out && HoldsNothing(s, u) && l < |s.locks|
    ensures Owed(Gone(s, u), t, l) == Owed(s, t, l) && Gone(s, u).locks == s.locks
  {
    assert Count(s, u, l) == 0;
  }

  lemma AcquireOwed(s: Sys, m: nat, t: Tid, l: nat)
    requires m < |s.locks| && l < |s.locks| && s.running in s.pc && s.pc[s.running] == Out
    ensures Acquire(s, m).Done? && |Acquire(s, m).value.locks| == |s.locks|
    ensures Owed(Acquire(s, m).value, t, l) == Owed(s, t, l) + Calls(s, DoAcquire(m), t, l)
  {
  }

  lemma ReleaseOwed(s: Sys, m: nat, t: Tid, l: nat)
    requires m < |s.locks| && l < |s.locks| && s.running in s.pc && s.pc[s.running] == Out && Release(s, m).Done?
    ensures |Release(s, m).value.locks| == |s.locks|
    ensures Owed(Release(s, m).value, t, l) == Owed(s, t, l) + Calls(s, DoRelease(m), t, l)
  {
  }

  lemma AdvanceOwed(s: Sys, t: Tid, l: nat)
    requires Inv(s) && Enabled(s, DoAdvance) && Advance(s).Done? && l < |s.locks|
    ensures |Advance(s).value.locks| == |s.locks| && Owed(Advance(s).value, t, l) == Owed(s, t, l)
  {
    hide Inv, Block, Up;
    var m := s.pc[s.running].l;
    if s.pc[s.running].Enter? {
      EnterCount(s, m);
    } else if s.pc[s.running].Rel3? {
      UpOwed(s, m, t, l);
    } else if s.pc[s.running].Down? || s.pc[s.running].Retry? {
      var q := SetPc(SetLock(s, m, s.locks[m].(waiters := s.locks[m].waiters + [s.running])), Retry(m));
      OnlySchedules(q, Blocked, t);
      Switched(q, Block(q, Blocked), t, l);
    }
  }

  lemma UpOwed(s: Sys, m: nat, t: Tid, l: nat)
    requires m < |s.locks| && l < |s.locks| && s.running in s.pc && s.pc[s.running] == Rel3(m) && Up(s, m).Done?
    ensures |Up(s, m).value.locks| == |s.locks| && Owed(Up(s, m).value, t, l) == Owed(s, t, l)
  {
  }

  lemma EnterCount(s: Sys, l: nat)
    requires Inv(s) && l < |s.locks| && s.running in s.pc && s.pc[s.running] == Enter(l)
    ensures Count(s, s.running, l) == 0
  {
    hide ReadyInv, OneRunning, IdleInv, PcInv;
    assert LockInv(s, l) && Inside(s, s.running, l) && FieldsFor(s, s.running, l);
  }

  /** The calls of lock_acquire less those of lock_release that thread t made for lock l. */
  function Tally(s: Sys, steps: seq<Step>, t: Tid, l: nat): int
    requires Legal(s, steps)
    decreases |steps|
  {
    if steps == [] then 0
    else
      Calls(s, steps[0], t, l)
      + if Next(s, steps[0]).Done? then Tally(Next(s, steps[0]).value, steps[1..], t, l) else 0
  }

  lemma {:induction false} RunOwed(s: Sys, steps: seq<Step>, t: Tid, l: nat)
    requires Inv(s) && Legal(s, steps) && l < |s.locks|
    ensures Run(s, steps).Done? && |Run(s, steps).value.locks| == |s.locks|
    ensures Owed(Run(s, steps).value, t, l) == Owed(s, t, l) + Tally(s, steps, t, l)
    decreases |steps|
  {
    hide Inv, Next, Enabled, Owed, Calls;
    if steps != [] {
      StepKeeps(s, steps[0]);
      StepOwed(s, steps[0], t, l);
      RunOwed(Next(s, steps[0]).value, steps[1..], t, l);
    }
  }

  /** In every run from the start: a thread that has called lock_acquire more often than lock_release, and is back
      from the last call, holds the lock, and repeat is the difference; a thread that has not holds it not. */
  lemma CallsInAllRuns(s: Sys, steps: seq<Step>, t: Tid, l: nat)
    requires Booted(s) && Legal(s, steps) && l < |s.locks|
    ensures Run(s, steps).Done? && l < |Run(s, steps).value.locks|
    ensures var n, k := Run(s, steps).value, Tally(s, steps, t, l);
            t in n.pc && n.pc[t] == Out ==>
              k >= 0 && if k > 0 then n.locks[l].holder == Some(t) && n.locks[l].repeat == k
                else n.locks[l].holder != Some(t)
  {
    hide Booted, Legal, Run, Inv, Tally, LockPromises;
    BootedInv(s);
    NothingOwed(s, t, l);
    RunKeeps(s, steps);
    RunOwed(s, steps, t, l);
    LocksInAllRuns(s, steps);
    var n := Run(s, steps).value;
    if t in n.pc && n.pc[t] == Out {
      HolderCounts(n, t, l);
    }
  }

  lemma NothingOwed(s: Sys, t: Tid, l: nat)
    requires Booted(s)
    ensures Owed(s, t, l) == 0
  {
    hide ReadyInv, OneRunning;
  }

  lemma HolderCounts(n: Sys, t: Tid, l: nat)
    requires Inv(n) && l < |n.locks| && t in n.pc && n.pc[t] == Out
    ensures if Count(n, t, l) > 0 then n.locks[l].holder == Some(t) && n.locks[l].repeat == Count(n, t, l)
            else n.locks[l].holder != Some(t)
  {
    hide ReadyInv, OneRunning, IdleInv, PcInv, WaitersInv, WakeInv;
    assert LockInv(n, l);
    if Count(n, t, l) > 0 {
      assert Inside(n, t, l) && FieldsFor(n, t, l);
    } else {
      assert !Inside(n, t, l);
      if u :| Inside(n, u, l) {
        assert FieldsFor(n, u, l) && u != t;
      }
    }
  }
}
