/** What every step of the threads keeps: the scheduler's lists, mutual exclusion, recursion counts,
    no lost wakeup; and no ASSERT fires. */
module ThreadInvariants {
  import opened Results
  import opened Sequences
  import opened Threads

  // ---------------------------------------------------------------------------------------
  // The scheduler.

  /** A thread is READY iff it is in the ready list, once. */
  ghost predicate ReadyInv(s: Sys) {
    && NoRepeat(s.ready)
    && (forall t :: t in s.ready ==> t in s.status && s.status[t] == Ready)
    && (forall t :: t in s.status && s.status[t] == Ready ==> t in s.ready)
  }

  /** Exactly one thread is RUNNING. */
  ghost predicate OneRunning(s: Sys) {
    && s.running in s.status && s.status[s.running] == Running
    && (forall t :: t in s.status && s.status[t] == Running ==> t == s.running)
  }

  /** The idle thread is never asleep but in its own loop. */
  ghost predicate IdleInv(s: Sys) {
    && s.idle in s.status && s.status[s.idle] != Waiting && s.status[s.idle] != Hanging
    && s.idle in s.pc && s.pc[s.idle] == Out && s.pc.Keys == s.status.Keys
    && (forall l: nat :: Count(s, s.idle, l) == 0)
  }

  // ---------------------------------------------------------------------------------------
  // Locks.

  /** Between the return of sema_down and sema_up. */
  ghost predicate Inside(s: Sys, t: Tid, l: nat) {
    && t in s.pc
    && (Count(s, t, l) > 0 || s.pc[t] == Got(l) || s.pc[t] == Enter(l) || s.pc[t] == Rel1(l) || s.pc[t] == Rel2(l)
        || s.pc[t] == Rel3(l))
  }

  /** What the lock's fields say of the thread that is inside. */
  ghost predicate FieldsFor(s: Sys, t: Tid, l: nat)
    requires l < |s.locks| && t in s.pc
  {
    var k, n := s.locks[l], Count(s, t, l);
    if s.pc[t] == Got(l) then k.holder == None && k.repeat == 0 && n == 0
    else if s.pc[t] == Enter(l) then k.holder == Some(t) && k.repeat == 0 && n == 0
    else if s.pc[t] == Rel1(l) then k.holder == Some(t) && k.repeat == 1 && n == 0
    else if s.pc[t] == Rel2(l) then k.holder == None && k.repeat == 1 && n == 0
    else if s.pc[t] == Rel3(l) then k.holder == None && k.repeat == 0 && n == 0
    else k.holder == Some(t) && k.repeat == n
  }

  /** Who waits is asleep, for this lock, once, and not inside. */
  ghost predicate WaitersInv(s: Sys, l: nat)
    requires l < |s.locks|
  {
    && NoRepeat(s.locks[l].waiters)
    && (forall t :: t in s.locks[l].waiters ==>
       t in s.status && t in s.pc && s.status[t] == Blocked && s.pc[t] == Retry(l))
    && (forall t :: t in s.status && t in s.pc && s.pc[t] == Retry(l) && s.status[t] == Blocked ==>
       t in s.locks[l].waiters)
  }

  /** At most one thread is inside, and value tells whether one is. */
  ghost predicate Exclusion(s: Sys, l: nat)
    requires l < |s.locks|
  {
    && s.locks[l].value <= 1
    && (forall t, u :: Inside(s, t, l) && Inside(s, u, l) ==> t == u)
    && (s.locks[l].value == 0 <==> exists t :: Inside(s, t, l))
  }

  ghost predicate FieldsInv(s: Sys, l: nat)
    requires l < |s.locks|
  {
    && (forall t :: Inside(s, t, l) ==> FieldsFor(s, t, l))
    && ((forall t :: !Inside(s, t, l)) ==> s.locks[l].holder == None && s.locks[l].repeat == 0)
    && (forall t :: t in s.pc && (s.pc[t] == Down(l) || s.pc[t] == Retry(l)) ==> Count(s, t, l) == 0)
  }

  /** A thread that was woken for the lock and has yet to try again. */
  ghost predicate Woken(s: Sys, t: Tid, l: nat) {
    t in s.status && t in s.pc && s.pc[t] == Retry(l) && s.status[t] != Blocked
  }

  /** No wakeup is lost: a free lock with waiters has somebody on the way. */
  ghost predicate WakeInv(s: Sys, l: nat)
    requires l < |s.locks|
  {
    s.locks[l].value == 1 && s.locks[l].waiters != [] ==> exists t :: Woken(s, t, l)
  }

  ghost predicate LockInv(s: Sys, l: nat)
    requires l < |s.locks|
  {
    WaitersInv(s, l) && Exclusion(s, l) && FieldsInv(s, l) && WakeInv(s, l)
  }

  /** Threads inside lock operations are awake, unless they wait; pcs name locks. */
  ghost predicate PcInv(s: Sys) {
    && (forall t :: t in s.pc && s.pc[t] != Out ==> s.pc[t].l < |s.locks|)
    && (forall t :: t in s.pc && t in s.status && s.pc[t] != Out && !s.pc[t].Retry? ==> !Asleep(s.status[t]))
    && (forall t :: t in s.pc && t in s.status && s.pc[t].Retry? ==> s.status[t] != Waiting && s.status[t] != Hanging)
    && (forall t: nat, l: nat :: t !in s.pc ==> Count(s, t, l) == 0)
  }

  /** Everything but who runs and who is ready. */
  ghost predicate Calm(s: Sys) {
    IdleInv(s) && PcInv(s) && forall l {:trigger LockInv(s, l)} :: 0 <= l < |s.locks| ==> LockInv(s, l)
  }

  ghost predicate Inv(s: Sys) {
    ReadyInv(s) && OneRunning(s) && Calm(s)
  }

  // ---------------------------------------------------------------------------------------
  // Scheduling steps.

  /** Only the scheduler's fields changed, and nobody fell asleep or woke up in a lock. */
  ghost predicate OnlyScheduled(s: Sys, n: Sys) {
    && n == s.(status := n.status, running := n.running, ready := n.ready) && n.status.Keys == s.status.Keys
    && (forall t :: t in s.status && t in s.pc && s.pc[t] != Out ==>
          && (n.status[t] == Blocked <==> s.status[t] == Blocked)
          && (Asleep(n.status[t]) <==> Asleep(s.status[t])))
  }

  lemma LocksStay(s: Sys, n: Sys, l: nat)
    requires OnlyScheduled(s, n) && l < |s.locks| && LockInv(s, l)
    ensures LockInv(n, l)
  {
    hide NoRepeat, FieldsFor;
    forall t ensures Inside(n, t, l) <==> Inside(s, t, l) {
    }
    forall t | Inside(s, t, l) ensures FieldsFor(n, t, l) {
      SameFields(s, n, t, l);
    }
    if n.locks[l].value == 1 && n.locks[l].waiters != [] {
      var t :| Woken(s, t, l);
      assert Woken(n, t, l);
    }
  }

  lemma SameFields(s: Sys, n: Sys, t: Tid, l: nat)
    requires n == s.(status := n.status, running := n.running, ready := n.ready) && l < |s.locks| && Inside(s, t, l)
             && FieldsFor(s, t, l)
    ensures FieldsFor(n, t, l)
  {
  }

  lemma SameCounts(s: Sys, n: Sys)
    requires OnlyScheduled(s, n)
    ensures forall t: nat, l: nat :: Count(n, t, l) == Count(s, t, l)
  {
  }

  lemma PcStays(s: Sys, n: Sys)
    requires OnlyScheduled(s, n) && PcInv(s) && s.pc.Keys == s.status.Keys
    ensures PcInv(n) && n.pc == s.pc && n.idle == s.idle && n.status.Keys == s.status.Keys && |n.locks| == |s.locks|
  {
    forall t | t in n.pc && n.pc[t] != Out && !n.pc[t].Retry? ensures !Asleep(n.status[t]) {
      assert t in s.status;
    }
    forall t | t in n.pc && n.pc[t].Retry? ensures n.status[t] != Waiting && n.status[t] != Hanging {
      assert t in s.status && (Asleep(n.status[t]) <==> Asleep(s.status[t]));
    }
    forall t: nat, l: nat | t !in n.pc ensures Count(n, t, l) == 0 {
      assert Count(s, t, l) == 0;
    }
  }

  lemma SchedKeeps(s: Sys, n: Sys)
    requires Calm(s) && OnlyScheduled(s, n) && ReadyInv(n) && OneRunning(n) && n.status[n.idle] != Waiting
             && n.status[n.idle] != Hanging
    ensures Inv(n)
  {
    hide LockInv, ReadyInv, OneRunning, PcInv, OnlyScheduled;
    PcStays(s, n);
    SameCounts(s, n);
    forall l | 0 <= l < |n.locks| ensures LockInv(n, l) {
      LocksStay(s, n, l);
    }
  }

  /** Leaving the processor: everything but the running thread is in order. */
  ghost predicate Left(s: Sys) {
    && NoRepeat(s.ready)
    && (forall t :: t in s.ready ==> t in s.status && s.status[t] == Ready)
    && (forall t :: t in s.status && s.status[t] == Ready ==> t in s.ready)
    && (forall t :: t in s.status ==> s.status[t] != Running)
    && s.idle in s.status && s.status[s.idle] != Waiting && s.status[s.idle] != Hanging
  }

  /** schedule finds a thread: if nobody is ready, the idle thread is asleep and can be woken. */
  lemma PickKeeps(s: Sys)
    requires Left(s)
    ensures Pick(s).Done?
    ensures var n := Pick(s).value;
            && ReadyInv(n) && OneRunning(n) && n == s.(status := n.status, running := n.running, ready := n.ready)
            && n.status.Keys == s.status.Keys && n.status[n.idle] != Waiting && n.status[n.idle] != Hanging
            && forall t :: t in s.status ==>
               n.status[t] == s.status[t]
                 || (t == n.running && n.status[t] == Running && (s.status[t] == Ready || t == s.idle))
  {
    if s.ready == [] {
      assert s.status[s.idle] != Ready;
    }
  }

  lemma LeaveIs(s: Sys, st: Status)
    requires ReadyInv(s) && OneRunning(s) && IdleInv(s) && st != Running
             && (s.running == s.idle ==> st != Waiting && st != Hanging)
    ensures Left(Leave(s, st))
  {
    var n := Leave(s, st);
    assert s.running !in s.ready;
  }

  /** A thread outside the locks, or one that stays awake, leaves the processor. */
  lemma SwitchKeeps(s: Sys, st: Status)
    requires Inv(s) && st != Running && (s.running == s.idle ==> st != Waiting && st != Hanging)
    requires s.pc[s.running] == Out || st == Ready
    ensures Pick(Leave(s, st)).Done? && Inv(Pick(Leave(s, st)).value)
  {
    hide LockInv, PcInv, Pick, Left, NoRepeat;
    LeaveIs(s, st);
    PickKeeps(Leave(s, st));
    var n := Pick(Leave(s, st)).value;
    SwitchSchedules(s, st, n);
    SchedKeeps(s, n);
  }

  lemma SwitchSchedules(s: Sys, st: Status, n: Sys)
    requires OneRunning(s) && IdleInv(s) && st != Running && (s.pc[s.running] == Out || st == Ready)
    requires var m := Leave(s, st);
             && n == m.(status := n.status, running := n.running, ready := n.ready) && n.status.Keys == m.status.Keys
             && forall t :: t in m.status ==>
                n.status[t] == m.status[t]
                  || (t == n.running && n.status[t] == Running && (m.status[t] == Ready || t == m.idle))
    ensures OnlyScheduled(s, n)
  {
    var m := Leave(s, st);
    forall t | t in s.status && t in s.pc && s.pc[t] != Out
      ensures (n.status[t] == Blocked <==> s.status[t] == Blocked) && (Asleep(n.status[t]) <==> Asleep(s.status[t]))
    {
      assert t in m.status && m.status[t] == if t == s.running then st else s.status[t];
    }
  }

  lemma UnblockReady(s: Sys, t: Tid)
    requires ReadyInv(s) && OneRunning(s) && t in s.status && Asleep(s.status[t])
    ensures Unblock(s, t).Done?
    ensures var n := Unblock(s, t).value;
            ReadyInv(n) && OneRunning(n) && n == s.(status := s.status[t := Ready], ready := [t] + s.ready)
  {
  }

  lemma WakeKeeps(s: Sys, t: Tid)
    requires Inv(s) && t in s.status && Asleep(s.status[t]) && s.pc[t] == Out
    ensures Unblock(s, t).Done? && Inv(Unblock(s, t).value)
  {
    hide LockInv, PcInv, ReadyInv;
    UnblockReady(s, t);
    SchedKeeps(s, Unblock(s, t).value);
  }

  // ---------------------------------------------------------------------------------------
  // Threads come and go.

  /** Only thread t, outside all locks, came or went. */
  ghost predicate OnlyThread(s: Sys, n: Sys, t: Tid) {
    && n.locks == s.locks && n.idle == s.idle && t != s.idle && n.pc.Keys == n.status.Keys && s.pc.Keys == s.status.Keys
    && (forall u :: u != t && u in s.pc ==> u in n.pc && n.pc[u] == s.pc[u] && n.status[u] == s.status[u])
    && (forall u :: u != t && u in n.pc ==> u in s.pc)
    && (t in s.pc ==> s.pc[t] == Out) && (t in n.pc ==> n.pc[t] == Out)
    && (forall u: nat, l: nat :: u != t ==> Count(n, u, l) == Count(s, u, l))
    && (forall l: nat :: Count(n, t, l) == 0) && HoldsNothing(s, t)
  }

  lemma LocksWithout(s: Sys, n: Sys, t: Tid, l: nat)
    requires OnlyThread(s, n, t) && l < |s.locks| && LockInv(s, l)
    ensures LockInv(n, l)
  {
    hide NoRepeat, FieldsFor;
    assert Count(s, t, l) == 0 && Count(n, t, l) == 0;
    forall u ensures Inside(n, u, l) <==> Inside(s, u, l) {
    }
    forall u | Inside(s, u, l) ensures FieldsFor(n, u, l) {
      FieldsWithout(s, n, t, u, l);
    }
    if n.locks[l].value == 1 && n.locks[l].waiters != [] {
      var u :| Woken(s, u, l);
      assert Woken(n, u, l);
    }
  }

  lemma FieldsWithout(s: Sys, n: Sys, t: Tid, u: Tid, l: nat)
    requires OnlyThread(s, n, t) && l < |s.locks| && u != t && u in s.pc && FieldsFor(s, u, l)
    ensures FieldsFor(n, u, l)
  {
    assert Count(n, u, l) == Count(s, u, l);
  }

  lemma CalmWithout(s: Sys, n: Sys, t: Tid)
    requires Calm(s) && OnlyThread(s, n, t)
    ensures Calm(n)
  {
    hide LockInv, IdleInv, PcInv, OnlyThread;
    SameLocks(s, n, t);
    PcWithout(s, n, t);
    forall l | 0 <= l < |n.locks| ensures LockInv(n, l) {
      LocksWithout(s, n, t, l);
    }
  }

  lemma SameLocks(s: Sys, n: Sys, t: Tid)
    requires OnlyThread(s, n, t)
    ensures n.locks == s.locks && n.idle == s.idle
  {
  }

  lemma PcWithout(s: Sys, n: Sys, t: Tid)
    requires IdleInv(s) && PcInv(s) && OnlyThread(s, n, t)
    ensures IdleInv(n) && PcInv(n)
  {
    forall u: nat, l: nat | u !in n.pc ensures Count(n, u, l) == 0 {
      assert u != t ==> Count(n, u, l) == Count(s, u, l);
    }
    forall l: nat ensures Count(n, n.idle, l) == 0 {
      assert Count(n, s.idle, l) == Count(s, s.idle, l);
    }
  }

  /** thread_start: the newborn is not in the ready list, and is its last element now. */
  lemma StartKeeps(s: Sys, t: Tid)
    requires Inv(s) && t !in s.status
    ensures Start(s, t).Done? && Inv(Start(s, t).value)
  {
    hide LockInv, Calm;
    assert t !in s.ready;
    var n := Start(s, t).value;
    assert ReadyInv(n) && OneRunning(n);
    StartsOutside(s, t);
    CalmWithout(s, n, t);
  }

  lemma StartsOutside(s: Sys, t: Tid)
    requires Calm(s) && t !in s.status && t !in s.ready
    ensures OnlyThread(s, Start(s, t).value, t)
  {
    hide LockInv;
    var n := Start(s, t).value;
    forall u: nat, l: nat ensures Count(n, u, l) == Count(s, u, l) {
    }
    assert t !in s.pc;
    assert forall l: nat :: Count(s, t, l) == 0;
  }

  /** Of a thread that is gone nothing is left: neither in the ready list nor among the waiters. */
  lemma GoneCalm(s: Sys, t: Tid)
    requires Calm(s) && t in s.status && s.pc[t] == Out && t != s.idle && HoldsNothing(s, t)
    ensures Calm(Gone(s, t))
  {
    hide LockInv, PcInv, HoldsNothing, Without;
    var n := Gone(s, t);
    forall u: nat, l: nat ensures Count(n, u, l) == if u == t then 0 else Count(s, u, l) {
    }
    CalmWithout(s, n, t);
  }

  lemma GoneReady(s: Sys, t: Tid)
    requires ReadyInv(s)
    ensures ReadyInv(Gone(s, t))
  {
    WithoutKeeps(s.ready, t);
  }

  /** thread_exit of a process that hangs: it is in no list. */
  lemma ReapKeeps(s: Sys, t: Tid)
    requires Inv(s) && t in s.status && s.status[t] == Hanging && HoldsNothing(s, t)
    ensures t !in s.ready && Inv(Gone(s, t))
  {
    hide LockInv, HoldsNothing, NoRepeat, Without;
    GoneCalm(s, t);
    GoneReady(s, t);
  }

  /** thread_exit of the running thread: schedule finds another one. */
  lemma ExitKeeps(s: Sys)
    requires Inv(s) && s.pc[s.running] == Out && s.running != s.idle && HoldsNothing(s, s.running)
    ensures Exit(s).Done? && Inv(Exit(s).value) && s.running !in Exit(s).value.status
  {
    hide LockInv, PcInv, HoldsNothing, NoRepeat, Pick, Without, OnlyScheduled;
    var m := Gone(s, s.running);
    GoneCalm(s, s.running);
    GoneReady(s, s.running);
    assert Left(m);
    PickKeeps(m);
    OtherScheduled(m);
    SchedKeeps(m, Pick(m).value);
  }

  lemma OtherScheduled(s: Sys)
    requires Left(s) && IdleInv(s) && Pick(s).Done?
    ensures OnlyScheduled(s, Pick(s).value)
  {
    hide Pick, Left;
    PickKeeps(s);
  }
}
