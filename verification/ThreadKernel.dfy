/** The scheduler, semaphores and locks as they are written: fields changed in place by the running
    thread (src/thread/thread.c, src/thread/sync.c). Each method is one atomic step of Threads. */
module ThreadKernel {
  import opened Results
  import opened Sequences
  import opened Threads
  import opened ThreadInvariants
  import opened LockSteps

  class Cpu {
    var status: map<Tid, Status>
    var running: Tid
    var ready: seq<Tid>       // thread_ready_list
    const idle: Tid
    var locks: seq<Lock>
    var pc: map<Tid, Pc>
    var count: map<(Tid, nat), nat>

    constructor (s: Sys)
      ensures Now() == s
    {
      status, running, ready, idle, locks, pc, count := s.status, s.running, s.ready, s.idle, s.locks, s.pc, s.count;
    }

    function Now(): Sys
      reads this
    {
      Sys(status, running, ready, idle, locks, pc, count)
    }

    /** Done: the new state; false where an ASSERT or PANIC halts the system. */
    ghost predicate Follows(ok: bool, spec: Outcome<Sys>)
      reads this
    {
      (ok <==> spec.Done?) && (ok ==> Now() == spec.value)
    }

    /** thread_unblock. */
    method ThreadUnblock(t: Tid) returns (ok: bool)
      modifies this
      ensures Follows(ok, Unblock(old(Now()), t))
    {
      if t !in status || !Asleep(status[t]) {
        return false;
      }
      if t in ready {
        return false;
      }
      ready := [t] + ready;
      status := status[t := Ready];
      return true;
    }

    /** schedule. */
    method Schedule() returns (ok: bool)
      requires running in status
      modifies this
      ensures Follows(ok, if old(status)[old(running)] == Running then Preempt(old(Now())) else Pick(old(Now())))
    {
      if status[running] == Running {
        if running in ready {
          return false;
        }
        ready := ready + [running];
        status := status[running := Ready];
      }
      ok := Dispatch();
    }

    /** The second half of schedule. */
    method Dispatch() returns (ok: bool)
      modifies this
      ensures Follows(ok, Pick(old(Now())))
    {
      if ready == [] {
        var woken := ThreadUnblock(idle);
        if !woken {
          return false;
        }
      }
      var next := ready[0];
      ready := ready[1..];
      status := status[next := Running];
      running := next;
      return true;
    }

    /** thread_block. */
    method ThreadBlock(st: Status) returns (ok: bool)
      modifies this
      ensures Follows(ok, Block(old(Now()), st))
    {
      if !Asleep(st) {
        return false;
      }
      status := status[running := st];
      ok := Schedule();
    }

    /** thread_yield: it appends itself, so that schedule does not. */
    method ThreadYield() returns (ok: bool)
      modifies this
      ensures Follows(ok, Preempt(old(Now())))
    {
      if running in ready {
        return false;
      }
      ready := ready + [running];
      status := status[running := Ready];
      ok := Schedule();
    }

    /** thread_start from the point where the new PCB is filled in; the end of sys_fork is the same. */
    method ThreadStart(t: Tid) returns (ok: bool)
      modifies this
      ensures Follows(ok, Start(old(Now()), t))
    {
      status, pc := status[t := Ready], pc[t := Out];
      if t in ready {
        return false;
      }
      ready := ready + [t];
      return true;
    }

    /** thread_exit, for the running thread or for a process that was found hanging: off the ready
        list if it is there, then off the list of all threads. */
    method ThreadExit(t: Tid, needSchedule: bool) returns (ok: bool)
      requires needSchedule ==> t == running
      modifies this
      ensures Follows(ok, if needSchedule then Exit(old(Now())) else Done(Gone(old(Now()), t)))
    {
      if t in ready {
        ready := Without(ready, t);
      } else {
        WithoutNone(ready, t);
      }
      status, pc := status - {t}, pc - {t};
      count := map k | k in count && k.0 != t :: count[k];
      ok := true;
      if needSchedule {
        ok := Dispatch();
      }
    }

    /** sema_down from the test of value to the next point where another thread may run. */
    method SemaDown(l: nat) returns (ok: bool)
      requires l < |locks|
      modifies this
      ensures Follows(ok, TryDown(old(Now()), l))
    {
      var k := locks[l];
      if k.value == 0 {
        if running in k.waiters {
          return false;
        }
        locks := locks[l := k.(waiters := k.waiters + [running])];
        pc := pc[running := Retry(l)];
        ok := ThreadBlock(Blocked);
      } else {
        if k.value != 1 {
          return false;
        }
        locks := locks[l := k.(value := k.value - 1)];
        pc := pc[running := Got(l)];
        return true;
      }
    }

    /** sema_up. */
    method SemaUp(l: nat) returns (ok: bool)
      requires l < |locks|
      modifies this
      ensures Follows(ok, Up(old(Now()), l))
    {
      var k := locks[l];
      if k.value != 0 {
        return false;
      }
      if k.waiters != [] {
        var woken := ThreadUnblock(k.waiters[0]);
        if !woken {
          return false;
        }
        k := k.(waiters := k.waiters[1..]);
      }
      locks := locks[l := k.(value := k.value + 1)];
      pc := pc[running := Out];
      return true;
    }

    /** lock_acquire up to sema_down. */
    method LockAcquire(l: nat) returns (ok: bool)
      requires l < |locks|
      modifies this
      ensures Follows(ok, Acquire(old(Now()), l))
    {
      var k := locks[l];
      if k.holder != Some(running) {
        pc := pc[running := Down(l)];
      } else {
        locks := locks[l := k.(repeat := k.repeat + 1)];
        count := count[(running, l) := Count(Now(), running, l) + 1];
      }
      return true;
    }

    /** lock_release up to the last release. */
    method LockRelease(l: nat) returns (ok: bool)
      requires l < |locks| && Count(Now(), running, l) > 0
      modifies this
      ensures Follows(ok, Release(old(Now()), l))
    {
      var k := locks[l];
      if k.holder != Some(running) {
        return false;
      }
      count := count[(running, l) := Count(Now(), running, l) - 1];
      if k.repeat > 1 {
        locks := locks[l := k.(repeat := k.repeat - 1)];
        return true;
      }
      if k.repeat != 1 {
        return false;
      }
      pc := pc[running := Rel1(l)];
      return true;
    }

    /** The statements of lock_acquire behind sema_down, and of lock_release before sema_up, one at
        a time. */
    method LockField() returns (ok: bool)
      requires running in pc && (pc[running].Got? || pc[running].Enter? || pc[running].Rel1? || pc[running].Rel2?)
      requires pc[running].l < |locks|
      modifies this
      ensures Follows(ok, Advance(old(Now())))
    {
      var l := pc[running].l;
      var k := locks[l];
      match pc[running] {
        case Got(_) =>
          locks, pc := locks[l := k.(holder := Some(running))], pc[running := Enter(l)];
        case Enter(_) =>
          if k.repeat != 0 {
            return false;
          }
          locks, pc := locks[l := k.(repeat := 1)], pc[running := Out];
          count := count[(running, l) := 1];
        case Rel1(_) =>
          locks, pc := locks[l := k.(holder := None)], pc[running := Rel2(l)];
        case Rel2(_) =>
          locks, pc := locks[l := k.(repeat := 0)], pc[running := Rel3(l)];
      }
      return true;
    }

    /** Any step that callers may make: it never halts, and the invariant stays. */
    method Perform(step: Step) returns (ok: bool)
      requires Inv(Now()) && Enabled(Now(), step)
      modifies this
      ensures ok && Inv(Now()) && Follows(ok, Next(old(Now()), step))
    {
      hide Inv, Acquire, Release, Pick, Preempt, Block, Unblock, TryDown, Up, Start, Gone, Exit;
      StepKeeps(Now(), step);
      match step {
        case DoPreempt => ok := ThreadYield();
        case DoBlock(st) => ok := ThreadBlock(st);
        case DoWake(t) => ok := ThreadUnblock(t);
        case DoStart(t) => ok := ThreadStart(t);
        case DoExit => ok := ThreadExit(running, true);
        case DoReap(t) => ok := ThreadExit(t, false);
        case DoAcquire(l) => ok := LockAcquire(l);
        case DoRelease(l) => ok := LockRelease(l);
        case DoAdvance =>
          var at := pc[running];
          if at.Down? || at.Retry? {
            ok := SemaDown(at.l);
          } else if at.Rel3? {
            ok := SemaUp(at.l);
          } else {
            ok := LockField();
          }
      }
    }
  }
}
