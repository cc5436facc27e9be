/** Who is whose child, over whole runs: a process belongs to the one that forked it, or to init once that one has
    begun to exit, and is reaped by the one it belongs to (src/userprog/fork.c, src/userprog/wait_exit.c). */
module Families {
  import opened Results
  import opened Processes

  /** The process is there and has not begun to exit. */
  predicate Parenting(w: World, f: Id) {
    f in w.procs && w.procs[f].life != Exiting && w.procs[f].life != Hanging
  }

  /** init is the first process and never exits. */
  ghost predicate InitThere(w: World) {
    Parenting(w, 0) && w.procs[0].pid == 1 && w.procs[0].parent.None?
  }

  /** The parent_pid of a forked process: its forker's pid, or init's once the forker exits. */
  ghost predicate BelongsTo(w: World, c: Id) {
    c in w.procs && c in w.forked ==>
      w.procs[c].parent == Some(if Parenting(w, w.forked[c]) then w.procs[w.forked[c]].pid else 1)
  }

  /** Who reaped process c. */
  ghost predicate ReapedBy(w: World, c: Id, t: Id) {
    c in w.forked ==> t == w.forked[c] || (t == 0 && !Parenting(w, w.forked[c]))
  }

  ghost predicate FamilyInv(w: World) {
    && InitThere(w)
    && (forall c :: c in w.procs ==> (c in w.forked <==> w.procs[c].parent.Some?))
    && (forall c :: c in w.forked ==> c < w.next && w.forked[c] < w.next)
    && (forall c {:trigger BelongsTo(w, c)} :: BelongsTo(w, c))
    && (forall i :: 0 <= i < |w.reaped| ==> ReapedBy(w, w.reaped[i].0, w.reaped[i].1))
  }

  /** Nobody stops or starts being a parent, and nobody's parent changes. */
  ghost predicate SameFamily(w: World, n: World) {
    && n.procs.Keys == w.procs.Keys && n.forked == w.forked && n.reaped == w.reaped && n.next == w.next
    && forall c :: c in w.procs ==>
         && n.procs[c].pid == w.procs[c].pid && n.procs[c].parent == w.procs[c].parent
         && (Parenting(n, c) <==> Parenting(w, c))
  }

  lemma SameKeeps(w: World, n: World)
    requires FamilyInv(w) && SameFamily(w, n)
    ensures FamilyInv(n)
  {
    forall f ensures Parenting(n, f) <==> Parenting(w, f) {
    }
    forall c ensures BelongsTo(n, c) {
      assert BelongsTo(w, c);
    }
    forall i | 0 <= i < |n.reaped| ensures ReapedBy(n, n.reaped[i].0, n.reaped[i].1) {
      assert ReapedBy(w, w.reaped[i].0, w.reaped[i].1);
    }
  }

  lemma ForkEndFamily(w: World, t: Id)
    requires Inv(w) && FamilyInv(w) && Enabled(w, DoForkEnd(t))
    ensures FamilyInv(ForkEnd(w, t))
  {
    hide PidsInv, ParentsInv, WaitInv, ForkEnd;
    var n := ForkEnd(w, t);
    ForkEndKeeps(w, t);
    ForkRecord(w, t);
    forall f | f != w.next ensures Parenting(n, f) <==> Parenting(w, f) {
    }
    forall c ensures BelongsTo(n, c) {
      assert BelongsTo(w, c);
    }
    forall i | 0 <= i < |n.reaped| ensures ReapedBy(n, n.reaped[i].0, n.reaped[i].1) {
      assert ReapedBy(w, w.reaped[i].0, w.reaped[i].1);
    }
  }

  lemma ForkRecord(w: World, t: Id)
    requires Enabled(w, DoForkEnd(t))
    ensures var n := ForkEnd(w, t);
            n.forked == w.forked[w.next := t] && n.reaped == w.reaped && n.next == w.next + 1
  {
  }

  lemma ReapFamily(w: World, t: Id, n: World, c: Id)
    requires Inv(w) && FamilyInv(w) && Enabled(w, DoWait(t)) && HangingChildOf(w, c, w.procs[t].pid)
    requires n.procs.Keys == w.procs.Keys - {c} && n.forked == w.forked && n.next == w.next
    requires t in n.procs && n.reaped == w.reaped + [(c, t)]
    requires forall u :: u in n.procs ==> n.procs[u].pid == w.procs[u].pid && n.procs[u].parent == w.procs[u].parent
    requires forall u :: u in n.procs && u != t ==> n.procs[u] == w.procs[u]
    requires Parenting(n, t)
    ensures FamilyInv(n)
  {
    hide ParentsInv, WaitInv, BirthInv, PidsInv;
    forall f ensures Parenting(n, f) <==> Parenting(w, f) {
    }
    forall d ensures BelongsTo(n, d) {
      assert BelongsTo(w, d);
    }
    assert BelongsTo(w, c);
    assert ReapedBy(w, c, t) by {
      if Parenting(w, w.forked[c]) {
        PidOf(w, w.forked[c], t);
      } else {
        PidOf(w, 0, t);
      }
    }
    forall i | 0 <= i < |n.reaped| ensures ReapedBy(n, n.reaped[i].0, n.reaped[i].1) {
      if i < |w.reaped| {
        assert n.reaped[i] == w.reaped[i];
        assert ReapedBy(w, w.reaped[i].0, w.reaped[i].1);
      }
    }
  }

  lemma WaitFamily(w: World, t: Id)
    requires Inv(w) && FamilyInv(w) && Enabled(w, DoWait(t))
    ensures FamilyInv(WaitRound(w, t).0)
  {
    hide PidsInv, ParentsInv, WaitInv, BirthInv, FamilyInv, WaitRound;
    WaitKeeps(w, t);
    var (n, r) := WaitRound(w, t);
    if r.Reaps? {
      ReapFamily(w, t, n, r.child);
    } else if r.Waits? {
      SameKeeps(w, n);
    }
  }

  lemma ExitBeginFamily(w: World, t: Id)
    requires Inv(w) && FamilyInv(w) && Enabled(w, DoExitBegin(t))
    ensures FamilyInv(ExitBegin(w, t).value)
  {
    hide PidsInv, ParentsInv, WaitInv, BirthInv, ExitBegin;
    ExitBeginKeeps(w, t);
    var n := ExitBegin(w, t).value;
    forall f ensures Parenting(n, f) <==> Parenting(w, f) && f != t {
    }
    forall c ensures BelongsTo(n, c) {
      assert BelongsTo(w, c);
      if c in w.procs && c in w.forked && Parenting(w, w.forked[c]) && w.procs[w.forked[c]].pid == w.procs[t].pid {
        PidOf(w, w.forked[c], t);
      }
    }
    forall i | 0 <= i < |n.reaped| ensures ReapedBy(n, n.reaped[i].0, n.reaped[i].1) {
      assert ReapedBy(w, w.reaped[i].0, w.reaped[i].1);
    }
  }

  lemma ThreadExitFamily(w: World, t: Id)
    requires Inv(w) && FamilyInv(w) && Enabled(w, DoThreadExit(t))
    ensures FamilyInv(ThreadExit(w, t))
  {
    hide PidsInv, ParentsInv, WaitInv, BirthInv;
    ThreadExitKeeps(w, t);
    var n := ThreadExit(w, t);
    forall f ensures Parenting(n, f) <==> Parenting(w, f) && f != t {
    }
    forall c ensures BelongsTo(n, c) {
      assert BelongsTo(w, c);
    }
    forall i | 0 <= i < |n.reaped| ensures ReapedBy(n, n.reaped[i].0, n.reaped[i].1) {
      if i < |w.reaped| {
        assert ReapedBy(w, w.reaped[i].0, w.reaped[i].1);
      }
    }
  }

  lemma StepFamily(w: World, s: Step)
    requires Inv(w) && FamilyInv(w) && Enabled(w, s) && Next(w, s).Done?
    ensures FamilyInv(Next(w, s).value)
  {
    hide Inv, FamilyInv, ForkEnd, WaitRound, ExitBegin, ExitEnd, ThreadExit, FreePid;
    match s {
      case DoForkPid(t) => SameKeeps(w, Next(w, s).value);
      case DoForkEnd(t) => ForkEndFamily(w, t);
      case DoWait(t) => WaitFamily(w, t);
      case DoRelease(t) => SameKeeps(w, Next(w, s).value);
      case DoExitBegin(t) => ExitBeginFamily(w, t);
      case DoExitEnd(t) =>
        ExitEndKeeps(w, t);
        SameKeeps(w, Next(w, s).value);
      case DoThreadExit(t) => ThreadExitFamily(w, t);
    }
  }

  lemma {:induction false} RunFamily(w: World, steps: seq<Step>)
    requires Inv(w) && FamilyInv(w) && Legal(w, steps)
    ensures Run(w, steps).Done? ==> FamilyInv(Run(w, steps).value)
    decreases |steps|
  {
    hide Inv, FamilyInv, Next, Enabled;
    if steps != [] && Next(w, steps[0]).Done? {
      StepKeeps(w, steps[0]);
      StepFamily(w, steps[0]);
      RunFamily(Next(w, steps[0]).value, steps[1..]);
    }
  }

  /** In every run from the start: the parent of a forked process is the one that forked it, or init if that one has
      begun to exit; and whoever reaped it is the one that forked it, or init if that one had begun to exit. */
  lemma FamiliesInAllRuns(steps: seq<Step>)
    requires Legal(Booted(), steps)
    ensures Run(Booted(), steps).Done? ==>
              var n := Run(Booted(), steps).value;
              && (forall c :: c in n.procs && c in n.forked ==>
                    n.procs[c].parent == Some(if Parenting(n, n.forked[c]) then n.procs[n.forked[c]].pid else 1))
              && (forall c, t :: (c, t) in n.reaped && c in n.forked ==>
                    t == n.forked[c] || (t == 0 && !Parenting(n, n.forked[c])))
  {
    hide Legal, Run, Inv;
    BootedInv();
    BootedFamily();
    RunFamily(Booted(), steps);
    if Run(Booted(), steps).Done? {
      var n := Run(Booted(), steps).value;
      forall c | c in n.procs && c in n.forked
        ensures n.procs[c].parent == Some(if Parenting(n, n.forked[c]) then n.procs[n.forked[c]].pid else 1)
      {
        assert BelongsTo(n, c);
      }
    }
  }

  lemma BootedFamily()
    ensures FamilyInv(Booted())
  {
  }
}
