/** The lock steps keep the invariant, so it holds in every run: lock_acquire and lock_release under
    any interleaving (src/thread/sync.c). */
module LockSteps {
  import opened Results
  import opened Sequences
  import opened Threads
  import opened ThreadInvariants

  predicate About(pc: Pc, l: nat) {
    pc == Out || pc.l == l
  }

  /** The running thread moved in lock l; of the statuses only those of waiters for l changed. */
  ghost predicate Moved(s: Sys, n: Sys, l: nat) {
    && l < |s.locks| && s.running in s.pc && s.running in n.pc && |n.locks| == |s.locks|
    && n.locks == s.locks[l := n.locks[l]] && n.pc == s.pc[s.running := n.pc[s.running]]
    && About(s.pc[s.running], l) && About(n.pc[s.running], l)
    && (forall t: nat, m: nat :: (t, m) != (s.running, l) ==> Count(n, t, m) == Count(s, t, m))
    && n.status.Keys == s.status.Keys
    && (forall t :: t in s.status && t in s.pc && t != s.running && !About(s.pc[t], l) ==> n.status[t] == s.status[t])
  }

  lemma LockElsewhere(s: Sys, n: Sys, l: nat, m: nat)
    requires Moved(s, n, l) && m < |s.locks| && m != l && LockInv(s, m)
    ensures LockInv(n, m)
  {
    hide FieldsFor;
    forall t ensures Inside(n, t, m) <==> Inside(s, t, m) {
      assert Count(n, t, m) == Count(s, t, m);
    }
    forall t | Inside(s, t, m) ensures FieldsFor(n, t, m) {
      FieldsElsewhere(s, n, l, m, t);
    }
    if n.locks[m].value == 1 && n.locks[m].waiters != [] {
      var t :| Woken(s, t, m);
      assert Woken(n, t, m);
    }
  }

  lemma FieldsElsewhere(s: Sys, n: Sys, l: nat, m: nat, t: Tid)
    requires Moved(s, n, l) && m < |s.locks| && m != l && Inside(s, t, m) && FieldsFor(s, t, m)
    ensures FieldsFor(n, t, m)
  {
    assert Count(n, t, m) == Count(s, t, m);
  }

  /** The scheduler's part is the same. */
  ghost predicate SameScheduling(s: Sys, n: Sys) {
    n.status == s.status && n.running == s.running && n.ready == s.ready && n.idle == s.idle
  }

  lemma MovedCalm(s: Sys, n: Sys, l: nat)
    requires Calm(s) && Moved(s, n, l) && s.running != s.idle && LockInv(n, l) && PcInv(n)
    requires n.idle == s.idle && n.status[n.idle] != Waiting && n.status[n.idle] != Hanging
    ensures Calm(n)
  {
    hide LockInv, PcInv;
    forall m | 0 <= m < |n.locks| ensures LockInv(n, m) {
      if m != l {
        LockElsewhere(s, n, l, m);
      }
    }
    IdleStays(s, n, l);
  }

  lemma IdleStays(s: Sys, n: Sys, l: nat)
    requires IdleInv(s) && Moved(s, n, l) && s.running != s.idle
    requires n.idle == s.idle && n.status[n.idle] != Waiting && n.status[n.idle] != Hanging
    ensures IdleInv(n)
  {
    forall m: nat ensures Count(n, n.idle, m) == 0 {
      assert Count(s, s.idle, m) == 0;
    }
  }

  lemma MovedKeeps(s: Sys, n: Sys, l: nat)
    requires Inv(s) && Moved(s, n, l) && SameScheduling(s, n) && s.running != s.idle && LockInv(n, l)
    ensures Inv(n)
  {
    hide LockInv, Moved, PcInv;
    PcsStayGood(s, n, l);
    IdleFacts(s);
    MovedCalm(s, n, l);
    KeysOf(s, n, l);
  }

  lemma IdleFacts(s: Sys)
    requires IdleInv(s)
    ensures s.idle in s.status && s.status[s.idle] != Waiting && s.status[s.idle] != Hanging
  {
  }

  lemma KeysOf(s: Sys, n: Sys, l: nat)
    requires Moved(s, n, l)
    ensures n.status.Keys == s.status.Keys
  {
  }

  lemma PcsStayGood(s: Sys, n: Sys, l: nat)
    requires PcInv(s) && OneRunning(s) && Moved(s, n, l) && SameScheduling(s, n)
    ensures PcInv(n)
  {
    forall t: nat, m: nat | t !in n.pc ensures Count(n, t, m) == 0 {
      assert Count(s, t, m) == 0;
    }
  }

  // ---------------------------------------------------------------------------------------
  // Steps of the thread that is inside.

  /** It stays inside: semaphore untouched, fields as they should be. */
  lemma StaysInside(s: Sys, n: Sys, l: nat)
    requires Inv(s) && Moved(s, n, l) && SameScheduling(s, n) && s.running != s.idle
    requires Inside(s, s.running, l) && Inside(n, s.running, l) && FieldsFor(n, s.running, l)
    requires n.locks[l].value == s.locks[l].value && n.locks[l].waiters == s.locks[l].waiters
    requires !n.pc[s.running].Retry? && !n.pc[s.running].Down? && !s.pc[s.running].Retry? && !s.pc[s.running].Down?
    ensures Inv(n)
  {
    hide Inv, ReadyInv, OneRunning, IdleInv, PcInv, FieldsFor, NoRepeat;
    InvFacts(s, l);
    var r := s.running;
    forall t ensures Inside(n, t, l) <==> t == r {
      assert t != r ==> Count(n, t, l) == Count(s, t, l);
      assert Inside(s, t, l) ==> t == r;
    }
    forall t | t in n.pc && (n.pc[t] == Down(l) || n.pc[t] == Retry(l)) ensures Count(n, t, l) == 0 {
      assert Count(n, t, l) == Count(s, t, l);
    }
    assert n.locks[l].value == 0;
    MovedKeeps(s, n, l);
  }

  lemma InvFacts(s: Sys, l: nat)
    requires Inv(s) && l < |s.locks|
    ensures LockInv(s, l) && s.running in s.pc && s.running in s.status && s.status[s.running] == Running
            && s.pc.Keys == s.status.Keys
  {
    hide LockInv;
  }

  lemma RunningNotIdle(s: Sys)
    requires Inv(s) && s.running in s.pc && s.pc[s.running] != Out
    ensures s.running != s.idle
  {
    hide LockInv, ReadyInv, PcInv;
  }

  /** lock_acquire begins. By the holder who is inside, it ends there, with one acquire more. */
  lemma AcquireKeeps(s: Sys, l: nat)
    requires Inv(s) && Enabled(s, DoAcquire(l))
    ensures Acquire(s, l).Done? && Inv(Acquire(s, l).value)
  {
    hide Inv, ReadyInv, OneRunning, IdleInv, PcInv, WakeInv, WaitersInv;
    InvFacts(s, l);
    var r, n := s.running, Acquire(s, l).value;
    HolderInside(s, l);
    if s.locks[l].holder == Some(r) {
      StaysInside(s, n, l);
    } else {
      GoesDown(s, l);
    }
  }

  /** The holder field names the thread inside, or nobody. */
  lemma HolderInside(s: Sys, l: nat)
    requires l < |s.locks| && FieldsInv(s, l)
    ensures forall t :: s.locks[l].holder == Some(t) ==> Inside(s, t, l)
    ensures forall t :: t in s.pc && Count(s, t, l) > 0 && About(s.pc[t], l) && s.pc[t] == Out ==>
            s.locks[l].holder == Some(t) && s.locks[l].repeat == Count(s, t, l)
  {
    forall t | s.locks[l].holder == Some(t) ensures Inside(s, t, l) {
      if u :| Inside(s, u, l) {
        assert FieldsFor(s, u, l);
      }
    }
    forall t | t in s.pc && Count(s, t, l) > 0 && s.pc[t] == Out
      ensures s.locks[l].holder == Some(t) && s.locks[l].repeat == Count(s, t, l)
    {
      assert Inside(s, t, l);
    }
  }

  lemma GoesDown(s: Sys, l: nat)
    requires Inv(s) && l < |s.locks| && s.running in s.pc && s.pc[s.running] == Out && s.running != s.idle
    requires s.locks[l].holder != Some(s.running)
    ensures Inv(SetPc(s, Down(l)))
  {
    hide Inv, ReadyInv, OneRunning, IdleInv, PcInv, FieldsFor, NoRepeat, Exclusion;
    InvFacts(s, l);
    HolderInside(s, l);
    var r, n := s.running, SetPc(s, Down(l));
    forall t ensures Inside(n, t, l) <==> Inside(s, t, l) {
      assert Count(n, t, l) == Count(s, t, l);
    }
    SameInside(s, n, l);
    forall t | Inside(s, t, l) ensures FieldsFor(n, t, l) {
      FieldsOf(s, n, l, t);
    }
    forall t | t in n.pc && (n.pc[t] == Down(l) || n.pc[t] == Retry(l)) ensures Count(n, t, l) == 0 {
      assert Count(n, t, l) == Count(s, t, l);
    }
    if n.locks[l].value == 1 && n.locks[l].waiters != [] {
      var t :| Woken(s, t, l);
      assert Woken(n, t, l);
    }
    MovedKeeps(s, n, l);
  }

  lemma SameInside(s: Sys, n: Sys, l: nat)
    requires l < |s.locks| && l < |n.locks| && Exclusion(s, l) && n.locks[l].value == s.locks[l].value
    requires forall t :: Inside(n, t, l) <==> Inside(s, t, l)
    ensures Exclusion(n, l)
  {
    hide Inside;
  }

  lemma FieldsOf(s: Sys, n: Sys, l: nat, t: Tid)
    requires l < |s.locks| && l < |n.locks| && t in s.pc && t in n.pc && n.pc[t] == s.pc[t]
             && Count(n, t, l) == Count(s, t, l)
    requires n.locks[l].holder == s.locks[l].holder && n.locks[l].repeat == s.locks[l].repeat && FieldsFor(s, t, l)
    ensures FieldsFor(n, t, l)
  {
  }

  /** lock_release begins: the ASSERTs on the holder and the count hold. */
  lemma ReleaseKeeps(s: Sys, l: nat)
    requires Inv(s) && Enabled(s, DoRelease(l))
    ensures Release(s, l).Done? && Inv(Release(s, l).value)
  {
    hide Inv, ReadyInv, OneRunning, PcInv, WakeInv, WaitersInv, Exclusion;
    InvFacts(s, l);
    HolderInside(s, l);
    IdleHoldsNothing(s, l);
    StaysInside(s, Release(s, l).value, l);
  }

  /** The idle thread is never inside a lock. */
  lemma IdleHoldsNothing(s: Sys, l: nat)
    requires Inv(s) && l < |s.locks| && s.running in s.pc && Count(s, s.running, l) > 0
    ensures s.running != s.idle
  {
    hide LockInv, ReadyInv, PcInv;
  }

  // ---------------------------------------------------------------------------------------
  // sema_down.

  /** The semaphore is taken: nobody was inside, now the running thread is. */
  lemma TakeKeeps(s: Sys, l: nat)
    requires Inv(s) && l < |s.locks| && s.running in s.pc && (s.pc[s.running] == Down(l) || s.pc[s.running] == Retry(l))
    requires s.locks[l].value == 1
    ensures Inv(SetPc(SetLock(s, l, s.locks[l].(value := 0)), Got(l)))
  {
    hide Inv, ReadyInv, OneRunning, IdleInv, PcInv, NoRepeat;
    InvFacts(s, l);
    RunningNotIdle(s);
    var r, n := s.running, SetPc(SetLock(s, l, s.locks[l].(value := 0)), Got(l));
    forall t ensures Inside(n, t, l) <==> t == r {
      assert Count(n, t, l) == Count(s, t, l) && !Inside(s, t, l);
    }
    assert forall t :: !Inside(s, t, l);
    assert Count(n, r, l) == Count(s, r, l) == 0;
    assert Inside(n, r, l);
    forall t | t in n.pc && (n.pc[t] == Down(l) || n.pc[t] == Retry(l)) ensures Count(n, t, l) == 0 {
      assert Count(n, t, l) == Count(s, t, l);
    }
    MovedKeeps(s, n, l);
  }

  /** The running thread joins the waiters and goes to sleep. */
  lemma WaitKeeps(s: Sys, l: nat)
    requires Inv(s) && l < |s.locks| && s.running in s.pc && (s.pc[s.running] == Down(l) || s.pc[s.running] == Retry(l))
    requires s.locks[l].value == 0
    ensures s.running !in s.locks[l].waiters
    ensures var m := SetPc(SetLock(s, l, s.locks[l].(waiters := s.locks[l].waiters + [s.running])), Retry(l));
            Block(m, Blocked).Done? && Inv(Block(m, Blocked).value)
  {
    hide ReadyInv, OneRunning, IdleInv, PcInv, LockInv, Left, Pick, NoRepeat;
    InvFacts(s, l);
    RunningNotIdle(s);
    assert s.running !in s.locks[l].waiters by { NotWaiting(s, l); }
    var m := SetPc(SetLock(s, l, s.locks[l].(waiters := s.locks[l].waiters + [s.running])), Retry(l));
    SameScheduler(s, m);
    LeaveIs(m, Blocked);
    var n := Leave(m, Blocked);
    PickKeeps(n);
    WaitingLock(s, n, l);
    WaitingPcs(s, n, l);
    WaitingMoved(s, n, l);
    IdleFacts(s);
    MovedCalm(s, n, l);
    OtherScheduled(n);
    SchedKeeps(n, Pick(n).value);
  }

  lemma NotWaiting(s: Sys, l: nat)
    requires l < |s.locks| && LockInv(s, l) && s.running in s.status && s.status[s.running] == Running
    ensures s.running !in s.locks[l].waiters
  {
  }

  lemma SameScheduler(s: Sys, m: Sys)
    requires ReadyInv(s) && OneRunning(s) && IdleInv(s) && s.running != s.idle
    requires m == s.(locks := m.locks, pc := m.pc) && m.pc.Keys == s.pc.Keys
             && m.pc == s.pc[s.running := m.pc[s.running]]
    ensures ReadyInv(m) && OneRunning(m) && IdleInv(m)
  {
    forall l: nat ensures Count(m, m.idle, l) == 0 {
      assert Count(s, s.idle, l) == 0;
    }
  }

  /** n: s with the running thread asleep among the waiters for l. */
  ghost predicate Waits(s: Sys, n: Sys, l: nat) {
    && l < |s.locks| && s.running in s.pc && s.running in s.status
    && n.locks == s.locks[l := s.locks[l].(waiters := s.locks[l].waiters + [s.running])]
    && n.pc == s.pc[s.running := Retry(l)] && n.status == s.status[s.running := Blocked]
    && n.count == s.count && n.idle == s.idle && n.running == s.running
  }

  lemma WaitingLock(s: Sys, n: Sys, l: nat)
    requires Waits(s, n, l) && LockInv(s, l) && s.locks[l].value == 0 && s.running !in s.locks[l].waiters
    requires s.pc[s.running] == Down(l) || s.pc[s.running] == Retry(l)
    ensures LockInv(n, l)
  {
    hide FieldsFor, Exclusion;
    var r := s.running;
    forall t ensures Inside(n, t, l) <==> Inside(s, t, l) {
      assert Count(n, t, l) == Count(s, t, l);
    }
    SameInside(s, n, l);
    forall t | Inside(s, t, l) ensures FieldsFor(n, t, l) {
      FieldsOf(s, n, l, t);
    }
  }

  lemma WaitingPcs(s: Sys, n: Sys, l: nat)
    requires Waits(s, n, l) && PcInv(s)
    ensures PcInv(n)
  {
    forall t: nat, m: nat | t !in n.pc ensures Count(n, t, m) == 0 {
      assert Count(s, t, m) == 0;
    }
  }

  lemma WaitingMoved(s: Sys, n: Sys, l: nat)
    requires Waits(s, n, l) && About(s.pc[s.running], l)
    ensures Moved(s, n, l)
  {
  }

  // ---------------------------------------------------------------------------------------
  // sema_up.

  lemma UpKeeps(s: Sys, l: nat)
    requires Inv(s) && l < |s.locks| && s.running in s.pc && s.pc[s.running] == Rel3(l)
    ensures Up(s, l).Done? && Inv(Up(s, l).value)
  {
    hide ReadyInv, OneRunning, IdleInv, PcInv, LockInv, NoRepeat;
    InvFacts(s, l);
    RunningNotIdle(s);
    InsideNow(s, l);
    IdleFacts(s);
    var k := s.locks[l];
    if k.waiters == [] {
      var n := Up(s, l).value;
      FreedLock(s, n, l);
      MovedKeeps(s, n, l);
    } else {
      var w := k.waiters[0];
      FirstWaits(s, l);
      UnblockReady(s, w);
      var n := Up(s, l).value;
      WokenLock(s, n, l);
      WokenPcs(s, n, l);
      SamePart(Unblock(s, w).value, n);
      MovedCalm(s, n, l);
    }
  }

  lemma SamePart(s: Sys, n: Sys)
    requires ReadyInv(s) && OneRunning(s) && n.status == s.status && n.ready == s.ready && n.running == s.running
    ensures ReadyInv(n) && OneRunning(n)
  {
  }

  lemma InsideNow(s: Sys, l: nat)
    requires l < |s.locks| && s.running in s.pc && s.pc[s.running] == Rel3(l) && LockInv(s, l)
    ensures s.locks[l].value == 0 && s.locks[l].holder == None && s.locks[l].repeat == 0 && Count(s, s.running, l) == 0
    ensures forall t :: Inside(s, t, l) ==> t == s.running
  {
    assert Inside(s, s.running, l);
  }

  lemma FirstWaits(s: Sys, l: nat)
    requires l < |s.locks| && LockInv(s, l) && s.locks[l].waiters != []
    ensures var w := s.locks[l].waiters[0]; w in s.status && s.status[w] == Blocked && w in s.pc && s.pc[w] == Retry(l)
    ensures s.locks[l].waiters[0] !in s.locks[l].waiters[1..]
  {
    assert s.locks[l].waiters[0] in s.locks[l].waiters;
  }

  lemma FreedLock(s: Sys, n: Sys, l: nat)
    requires l < |s.locks| && s.running in s.pc && s.pc[s.running] == Rel3(l) && LockInv(s, l)
             && s.locks[l].waiters == []
    requires n == SetPc(SetLock(s, l, s.locks[l].(value := 1)), Out)
    ensures LockInv(n, l)
  {
    InsideNow(s, l);
    forall t ensures !Inside(n, t, l) {
      assert Count(n, t, l) == Count(s, t, l) && (t != s.running ==> !Inside(s, t, l));
    }
    forall t | t in n.pc && (n.pc[t] == Down(l) || n.pc[t] == Retry(l)) ensures Count(n, t, l) == 0 {
      assert Count(n, t, l) == Count(s, t, l);
    }
  }

  lemma WokenLock(s: Sys, n: Sys, l: nat)
    requires l < |s.locks| && s.running in s.pc && s.pc[s.running] == Rel3(l) && LockInv(s, l)
             && s.locks[l].waiters != []
    requires n.status == s.status[s.locks[l].waiters[0] := Ready] && n.count == s.count
    requires n.locks == s.locks[l := s.locks[l].(waiters := s.locks[l].waiters[1..], value := 1)]
             && n.pc == s.pc[s.running := Out]
    ensures LockInv(n, l)
  {
    InsideNow(s, l);
    FirstWaits(s, l);
    forall t ensures !Inside(n, t, l) {
      assert Count(n, t, l) == Count(s, t, l) && (t != s.running ==> !Inside(s, t, l));
    }
    forall t | t in n.pc && (n.pc[t] == Down(l) || n.pc[t] == Retry(l)) ensures Count(n, t, l) == 0 {
      assert Count(n, t, l) == Count(s, t, l);
    }
    assert Woken(n, s.locks[l].waiters[0], l);
  }

  lemma WokenPcs(s: Sys, n: Sys, l: nat)
    requires PcInv(s) && l < |s.locks| && s.running in s.pc && s.locks[l].waiters != []
    requires var w := s.locks[l].waiters[0]; w in s.pc && s.pc[w] == Retry(l)
    requires n.status == s.status[s.locks[l].waiters[0] := Ready] && n.count == s.count && |n.locks| == |s.locks|
    requires n.pc == s.pc[s.running := Out]
    ensures PcInv(n)
  {
    forall t: nat, m: nat | t !in n.pc ensures Count(n, t, m) == 0 {
      assert Count(s, t, m) == 0;
    }
  }

  // ---------------------------------------------------------------------------------------
  // All steps, all runs.

  lemma AdvanceKeeps(s: Sys)
    requires Inv(s) && Enabled(s, DoAdvance)
    ensures Advance(s).Done? && Inv(Advance(s).value)
  {
    hide Inv, ReadyInv, OneRunning, IdleInv, PcInv, LockInv, Block, Unblock, Up;
    var l := s.pc[s.running].l;
    InvFacts(s, l);
    RunningNotIdle(s);
    ValueOk(s, l);
    match s.pc[s.running] {
      case Down(_) =>
        if s.locks[l].value == 0 { WaitKeeps(s, l); } else { TakeKeeps(s, l); }
      case Retry(_) =>
        if s.locks[l].value == 0 { WaitKeeps(s, l); } else { TakeKeeps(s, l); }
      case Rel3(_) => UpKeeps(s, l);
      case Got(_) => MovesInside(s, l);
      case Enter(_) => MovesInside(s, l);
      case Rel1(_) => MovesInside(s, l);
      case Rel2(_) => MovesInside(s, l);
      case Out =>
    }
  }

  lemma ValueOk(s: Sys, l: nat)
    requires l < |s.locks| && LockInv(s, l)
    ensures s.locks[l].value <= 1
  {
  }

  /** Between sema_down and sema_up, one field at a time; the ASSERT on the count holds. */
  lemma MovesInside(s: Sys, l: nat)
    requires Inv(s) && Enabled(s, DoAdvance) && s.pc[s.running].l == l
    requires s.pc[s.running] == Got(l) || s.pc[s.running] == Enter(l) || s.pc[s.running] == Rel1(l)
             || s.pc[s.running] == Rel2(l)
    ensures Advance(s).Done? && Inv(Advance(s).value)
  {
    hide Inv, ReadyInv, OneRunning, IdleInv, PcInv, WaitersInv, WakeInv, Exclusion, Moved, SameScheduling, TryDown, Up;
    InvFacts(s, l);
    RunningNotIdle(s);
    assert Inside(s, s.running, l) && FieldsFor(s, s.running, l);
    FieldMoved(s, l);
    StaysInside(s, Advance(s).value, l);
  }

  lemma FieldMoved(s: Sys, l: nat)
    requires Enabled(s, DoAdvance) && s.pc[s.running].l == l && Advance(s).Done? && FieldsFor(s, s.running, l)
    requires s.pc[s.running] == Got(l) || s.pc[s.running] == Enter(l) || s.pc[s.running] == Rel1(l)
             || s.pc[s.running] == Rel2(l)
    ensures Moved(s, Advance(s).value, l) && SameScheduling(s, Advance(s).value)
  {
    hide TryDown, Up;
  }

  /** Every step keeps the invariant, and no ASSERT or PANIC of the scheduler, the semaphore or the
      lock fires. */
  lemma StepKeeps(s: Sys, step: Step)
    requires Inv(s) && Enabled(s, step)
    ensures Next(s, step).Done? && Inv(Next(s, step).value)
  {
    hide Inv, Acquire, Release, Advance, Pick, Leave, Unblock;
    match step {
      case DoPreempt =>
        RunningNotReady(s);
        SwitchKeeps(s, Ready);
      case DoBlock(st) =>
        SwitchKeeps(s, st);
      case DoWake(t) => WakeKeeps(s, t);
      case DoStart(t) => StartKeeps(s, t);
      case DoExit => ExitKeeps(s);
      case DoReap(t) => ReapKeeps(s, t);
      case DoAcquire(l) => AcquireKeeps(s, l);
      case DoRelease(l) => ReleaseKeeps(s, l);
      case DoAdvance => AdvanceKeeps(s);
    }
  }

  lemma RunningNotReady(s: Sys)
    requires Inv(s)
    ensures s.running !in s.ready
  {
    hide Calm;
  }

  lemma {:induction false} RunKeeps(s: Sys, steps: seq<Step>)
    requires Inv(s) && Legal(s, steps)
    ensures Run(s, steps).Done? && Inv(Run(s, steps).value)
    decreases |steps|
  {
    hide Inv, Next, Enabled;
    if steps != [] {
      StepKeeps(s, steps[0]);
      RunKeeps(Next(s, steps[0]).value, steps[1..]);
    }
  }

  /** The main thread runs, some others are ready, all locks are free. */
  ghost predicate Booted(s: Sys) {
    && ReadyInv(s) && OneRunning(s) && s.idle in s.status && s.idle in s.ready && s.pc.Keys == s.status.Keys
    && (forall t :: t in s.status ==> s.pc[t] == Out && (t == s.running || s.status[t] == Ready))
    && s.count == map[] && forall l :: 0 <= l < |s.locks| ==> s.locks[l] == Lock(1, [], None, 0)
  }

  lemma BootedInv(s: Sys)
    requires Booted(s)
    ensures Inv(s)
  {
    hide ReadyInv;
    forall l | 0 <= l < |s.locks| ensures LockInv(s, l) {
      assert forall t :: !Inside(s, t, l);
    }
  }

  /** Mutual exclusion, the meaning of the lock's fields, and who waits where. */
  ghost predicate LockPromises(n: Sys, l: nat)
    requires l < |n.locks|
  {
    && (forall t, u :: Inside(n, t, l) && Inside(n, u, l) ==> t == u)
    && (n.locks[l].value == 0 <==> exists t :: Inside(n, t, l)) && n.locks[l].value <= 1
    && (forall t :: t in n.pc && Count(n, t, l) > 0 && n.pc[t] == Out ==>
          n.locks[l].holder == Some(t) && n.locks[l].repeat == Count(n, t, l))
    && (n.locks[l].value == 1 && n.locks[l].waiters != [] ==> exists t :: Woken(n, t, l))
    && NoRepeat(n.locks[l].waiters)
    && (forall t :: t in n.locks[l].waiters ==>
       t in n.status && n.status[t] == Blocked && t !in n.ready && t != n.running)
  }

  /** No thread waits for two locks. */
  ghost predicate OneQueue(n: Sys) {
    forall l, m, t ::
      0 <= l < |n.locks| && 0 <= m < |n.locks| && t in n.locks[l].waiters && t in n.locks[m].waiters ==> l == m
  }

  /** In every run from the start, with threads coming and going: no ASSERT fires, at most one thread
      is between its sema_down and its sema_up, and the semaphore's value tells whether one is; the
      recursion count is the number of acquires it has not released; a free lock with waiters has a
      woken thread that will try again; and a waiter is asleep in that one list. */
  lemma LocksInAllRuns(s: Sys, steps: seq<Step>)
    requires Booted(s)
    requires Legal(s, steps)
    ensures Run(s, steps).Done?
    ensures var n := Run(s, steps).value;
            && ReadyInv(n) && OneRunning(n) && OneQueue(n)
            && forall l :: 0 <= l < |n.locks| ==> LockPromises(n, l)
  {
    hide ReadyInv, OneRunning, PcInv, IdleInv, Legal, Run, FieldsFor, Woken, LockInv, LockPromises, OneQueue;
    BootedInv(s);
    RunKeeps(s, steps);
    var n := Run(s, steps).value;
    forall l | 0 <= l < |n.locks| ensures LockPromises(n, l) {
      assert LockInv(n, l);
      Promised(n, l);
    }
    AtOneLock(n);
  }

  lemma Promised(n: Sys, l: nat)
    requires Inv(n) && l < |n.locks| && LockInv(n, l)
    ensures LockPromises(n, l)
  {
    hide PcInv, IdleInv, FieldsFor, Woken, Inside, NoRepeat;
    HolderInside(n, l);
  }

  lemma AtOneLock(n: Sys)
    requires Inv(n)
    ensures OneQueue(n)
  {
    hide PcInv, IdleInv, Exclusion, FieldsInv, WakeInv, ReadyInv, OneRunning;
    forall l, m, t | 0 <= l < |n.locks| && 0 <= m < |n.locks| && t in n.locks[l].waiters && t in n.locks[m].waiters
      ensures l == m
    {
      assert LockInv(n, l) && LockInv(n, m);
    }
  }
}
