/** Threads, the ready list, semaphores and recursive locks (src/thread/thread.c, src/thread/sync.c) as
    steps of the thread on the processor: a step is what runs with interrupts off, or one access to
    the lock's fields where they are on. Any thread may be preempted between two steps. */
module Threads {
  import opened Results
  import opened Sequences

  type Tid = nat

  datatype Status = Running | Ready | Blocked | Waiting | Hanging

  /** Where a thread is in lock_acquire or lock_release of lock l. Down: about to try sema_down for
      the first time. Retry: it was blocked in sema_down. Got: behind sema_down. Enter: holder is
      set. Rel1: about to clear holder, Rel2: the count, Rel3: about to sema_up. */
  datatype Pc =
    | Out
    | Down(l: nat) | Retry(l: nat) | Got(l: nat) | Enter(l: nat)
    | Rel1(l: nat) | Rel2(l: nat) | Rel3(l: nat)

  /** A lock with its semaphore. */
  datatype Lock = Lock(value: nat, waiters: seq<Tid>, holder: Option<Tid>, repeat: nat)

  /** count: acquires of a lock that a thread has completed and not yet begun to release. */
  datatype Sys = Sys(
    status: map<Tid, Status>, running: Tid, ready: seq<Tid>, idle: Tid,
    locks: seq<Lock>, pc: map<Tid, Pc>, count: map<(Tid, nat), nat>)

  function Count(s: Sys, t: Tid, l: nat): nat {
    if (t, l) in s.count then s.count[(t, l)] else 0
  }

  predicate Asleep(st: Status) {
    st == Blocked || st == Waiting || st == Hanging
  }

  // ---------------------------------------------------------------------------------------
  // thread.c.

  /** thread_unblock, with its ASSERT and PANIC. */
  function Unblock(s: Sys, t: Tid): (r: Outcome<Sys>) {
    if t in s.status && Asleep(s.status[t]) && t !in s.ready
    then Done(s.(ready := [t] + s.ready, status := s.status[t := Ready]))
    else AssertFailed
  }

  /** The running thread's state before schedule: to the end of the ready list if it is to run
      again, else asleep. */
  function Leave(s: Sys, st: Status): Sys {
    s.(status := s.status[s.running := st], ready := if st == Ready then s.ready + [s.running] else s.ready)
  }

  /** The second half of schedule: the idle thread if nobody is ready, then the first. */
  function Pick(s: Sys): (r: Outcome<Sys>) {
    var s2 :- if s.ready == [] then Unblock(s, s.idle) else Done(s);
    var next := s2.ready[0];
    Done(s2.(ready := s2.ready[1..], status := s2.status[next := Running], running := next))
  }

  /** schedule on a timer tick, and thread_yield: the thread goes to the end of the ready list,
      where the code asserts that it is not. */
  function Preempt(s: Sys): Outcome<Sys> {
    if s.running in s.ready then AssertFailed else Pick(Leave(s, Ready))
  }

  /** thread_block. */
  function Block(s: Sys, st: Status): Outcome<Sys> {
    if Asleep(st) then Pick(Leave(s, st)) else AssertFailed
  }

  /** thread_start, and the end of sys_fork: the newborn goes to the end of the ready list, where the
      code asserts that it is not. */
  function Start(s: Sys, t: Tid): Outcome<Sys> {
    if t in s.ready then AssertFailed
    else Done(s.(status := s.status[t := Ready], ready := s.ready + [t], pc := s.pc[t := Out]))
  }

  /** The system without thread t: nothing of it is left in the ready list. */
  function Gone(s: Sys, t: Tid): Sys {
    s.(status := s.status - {t}, ready := Without(s.ready, t), pc := s.pc - {t},
       count := map k | k in s.count && k.0 != t :: s.count[k])
  }

  /** thread_exit of the running thread: its state is neither running nor ready, another one runs. */
  function Exit(s: Sys): Outcome<Sys> {
    Pick(Gone(s, s.running))
  }

  // ---------------------------------------------------------------------------------------
  // sync.c.

  function SetPc(s: Sys, pc: Pc): Sys {
    s.(pc := s.pc[s.running := pc])
  }

  function SetLock(s: Sys, l: nat, k: Lock): Sys
    requires l < |s.locks|
  {
    s.(locks := s.locks[l := k])
  }

  function SetCount(s: Sys, l: nat, n: nat): Sys {
    s.(count := s.count[(s.running, l) := n])
  }

  /** lock_acquire up to sema_down. */
  function Acquire(s: Sys, l: nat): Outcome<Sys>
    requires l < |s.locks|
  {
    var k := s.locks[l];
    if k.holder == Some(s.running)
    then Done(SetCount(SetLock(s, l, k.(repeat := k.repeat + 1)), l, Count(s, s.running, l) + 1))
    else Done(SetPc(s, Down(l)))
  }

  /** One round of the loop in sema_down. */
  function TryDown(s: Sys, l: nat): Outcome<Sys>
    requires l < |s.locks|
  {
    var k := s.locks[l];
    if k.value == 0 then
      if s.running in k.waiters then AssertFailed
      else Block(SetPc(SetLock(s, l, k.(waiters := k.waiters + [s.running])), Retry(l)), Blocked)
    else if k.value == 1 then Done(SetPc(SetLock(s, l, k.(value := 0)), Got(l)))
    else AssertFailed
  }

  /** lock_release up to the point where a last release clears the holder. */
  function Release(s: Sys, l: nat): Outcome<Sys>
    requires l < |s.locks|
  {
    var k := s.locks[l];
    if k.holder != Some(s.running) || Count(s, s.running, l) == 0 then AssertFailed
    else
      var n := SetCount(s, l, Count(s, s.running, l) - 1);
      if k.repeat > 1 then Done(SetLock(n, l, k.(repeat := k.repeat - 1)))
      else if k.repeat == 1 then Done(SetPc(n, Rel1(l)))
      else AssertFailed
  }

  /** sema_up: the first waiter becomes ready, the value 1. */
  function Up(s: Sys, l: nat): Outcome<Sys>
    requires l < |s.locks|
  {
    var k := s.locks[l];
    if k.value != 0 then AssertFailed
    else if k.waiters == [] then Done(SetPc(SetLock(s, l, k.(value := 1)), Out))
    else
      var s1 :- Unblock(s, k.waiters[0]);
      Done(SetPc(SetLock(s1, l, k.(waiters := k.waiters[1..], value := 1)), Out))
  }

  /** The next step of a thread inside lock_acquire or lock_release. */
  function Advance(s: Sys): Outcome<Sys>
    requires s.running in s.pc
    requires s.pc[s.running] != Out ==> s.pc[s.running].l < |s.locks|
  {
    match s.pc[s.running]
    case Out => Done(s)
    case Down(l) => TryDown(s, l)
    case Retry(l) => TryDown(s, l)
    case Got(l) => Done(SetPc(SetLock(s, l, s.locks[l].(holder := Some(s.running))), Enter(l)))
    case Enter(l) =>
      if s.locks[l].repeat != 0 then AssertFailed
      else Done(SetCount(SetPc(SetLock(s, l, s.locks[l].(repeat := 1)), Out), l, 1))
    case Rel1(l) => Done(SetPc(SetLock(s, l, s.locks[l].(holder := None)), Rel2(l)))
    case Rel2(l) => Done(SetPc(SetLock(s, l, s.locks[l].(repeat := 0)), Rel3(l)))
    case Rel3(l) => Up(s, l)
  }

  // ---------------------------------------------------------------------------------------
  // Steps.

  datatype Step =
    | DoPreempt                 // the timer, or thread_yield
    | DoBlock(st: Status)       // the thread waits for something other than a lock
    | DoWake(t: Tid)            // somebody else's event
    | DoStart(t: Tid)           // a new thread or process
    | DoExit                    // the thread itself calls thread_exit
    | DoReap(t: Tid)            // thread_exit for a process that hangs
    | DoAcquire(l: nat)
    | DoRelease(l: nat)
    | DoAdvance

  /** It has no acquire to release. */
  predicate HoldsNothing(s: Sys, t: Tid) {
    forall l :: 0 <= l < |s.locks| ==> Count(s, t, l) == 0
  }

  /** What callers keep to: a thread releases what it holds before its end, wakes no one who waits for
      a lock, and the idle thread only blocks. */
  predicate Enabled(s: Sys, step: Step) {
    && s.running in s.pc
    && match step
       case DoPreempt => true
       case DoBlock(st) => s.pc[s.running] == Out && Asleep(st) && (s.running == s.idle ==> st == Blocked)
       case DoWake(t) => s.pc[s.running] == Out && t != s.idle && t in s.pc && s.pc[t] == Out && t in s.status
         && Asleep(s.status[t])
       case DoStart(t) => s.pc[s.running] == Out && t !in s.status
       case DoExit => s.pc[s.running] == Out && s.running != s.idle && HoldsNothing(s, s.running)
       case DoReap(t) => s.pc[s.running] == Out && t in s.status && s.status[t] == Hanging && HoldsNothing(s, t)
       case DoAcquire(l) => s.pc[s.running] == Out && l < |s.locks| && s.running != s.idle
       case DoRelease(l) => s.pc[s.running] == Out && l < |s.locks| && Count(s, s.running, l) > 0
       case DoAdvance => s.pc[s.running] != Out && s.pc[s.running].l < |s.locks|
  }

  function Next(s: Sys, step: Step): Outcome<Sys>
    requires Enabled(s, step)
  {
    match step
    case DoPreempt => Preempt(s)
    case DoBlock(st) => Block(s, st)
    case DoWake(t) => Unblock(s, t)
    case DoStart(t) => Start(s, t)
    case DoExit => Exit(s)
    case DoReap(t) => Done(Gone(s, t))
    case DoAcquire(l) => Acquire(s, l)
    case DoRelease(l) => Release(s, l)
    case DoAdvance => Advance(s)
  }

  ghost predicate Legal(s: Sys, steps: seq<Step>)
    decreases |steps|
  {
    steps != [] ==> Enabled(s, steps[0]) && (Next(s, steps[0]).Done? ==> Legal(Next(s, steps[0]).value, steps[1..]))
  }

  function Run(s: Sys, steps: seq<Step>): Outcome<Sys>
    requires Legal(s, steps)
    decreases |steps|
  {
    if steps == [] then Done(s)
    else
      var n :- Next(s, steps[0]);
      Run(n, steps[1..])
  }
}
