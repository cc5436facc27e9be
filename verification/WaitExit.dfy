/** sys_wait and sys_exit as they are written: walks along thread_all_list that change the processes
    in place (src/userprog/wait_exit.c). */
module WaitExit {
  import opened Results
  import opened Sequences
  import opened Processes

  class Table {
    var all: seq<Id>           // thread_all_list
    var procs: map<Id, Proc>
    var taken: set<nat>        // pids in use
    var next: Id
    var reaped: seq<(Id, Id)>
    var forked: map<Id, Id>

    constructor (w: World)
      ensures Now() == w
    {
      all, procs, taken, next, reaped, forked := w.all, w.procs, w.taken, w.next, w.reaped, w.forked;
    }

    function Now(): World
      reads this
    {
      World(all, procs, taken, next, reaped, forked)
    }

    /** list_traversal with find_hanging_child. */
    method FindHangingChild(pid: nat) returns (r: Option<Id>)
      ensures r == FirstHanging(Now(), all, pid)
    {
      var k := 0;
      assert all[0..] == all;
      while k < |all|
        invariant 0 <= k <= |all| && FirstHanging(Now(), all, pid) == FirstHanging(Now(), all[k..], pid)
      {
        if HangingChildOf(Now(), all[k], pid) {
          return Some(all[k]);
        }
        assert all[k..][1..] == all[k + 1..];
        k := k + 1;
      }
      return None;
    }

    /** list_traversal with find_child. */
    method FindChild(pid: nat) returns (r: Option<Id>)
      ensures r == FirstChild(Now(), all, pid)
    {
      var k := 0;
      assert all[0..] == all;
      while k < |all|
        invariant 0 <= k <= |all| && FirstChild(Now(), all, pid) == FirstChild(Now(), all[k..], pid)
      {
        if ChildOf(Now(), all[k], pid) {
          return Some(all[k]);
        }
        assert all[k..][1..] == all[k + 1..];
        k := k + 1;
      }
      return None;
    }

    /** pid2thread. */
    method PidToThread(pid: nat) returns (r: Option<Id>)
      ensures r == WithPid(Now(), all, pid)
    {
      var k := 0;
      assert all[0..] == all;
      while k < |all|
        invariant 0 <= k <= |all| && WithPid(Now(), all, pid) == WithPid(Now(), all[k..], pid)
      {
        if all[k] in procs && procs[all[k]].pid == pid {
          return Some(all[k]);
        }
        assert all[k..][1..] == all[k + 1..];
        k := k + 1;
      }
      return None;
    }

    /** list_traversal with init_adopt_achild: it never stops early. */
    method InitAdopt(pid: nat)
      requires forall t :: t in all <==> t in procs
      modifies `procs
      ensures procs == Adopt(old(procs), pid)
    {
      ghost var was := procs;
      var k := 0;
      while k < |all|
        invariant 0 <= k <= |all| && procs.Keys == was.Keys
        invariant forall c :: c in was ==>
                    procs[c] == if c in all[..k] && was[c].parent == Some(pid) then was[c].(parent := Some(INIT))
                      else was[c]
      {
        var c := all[k];
        assert all[..k + 1] == all[..k] + [c];
        if procs[c].parent == Some(pid) {
          procs := procs[c := procs[c].(parent := Some(INIT))];
        }
        k := k + 1;
      }
      assert all[..k] == all;
    }

    /** fork_pid: the first number of the pool that is not taken; a full pool halts. */
    method ForkPid(t: Id) returns (r: Outcome<nat>)
      requires t in procs
      modifies `procs, `taken
      ensures match Processes.ForkPid(old(Now()), t)
              case Done(n) => r.Done? && Now() == n && procs[t].life == Forking(r.value)
              case _ => r.Exhausted? && Now() == old(Now())
    {
      var pid := 1;
      while pid <= PIDS && pid in taken
        invariant 1 <= pid <= PIDS + 1 && FreePid(taken, 1) == FreePid(taken, pid)
      {
        pid := pid + 1;
      }
      if pid > PIDS {
        return Exhausted;
      }
      procs := procs[t := procs[t].(life := Forking(pid))];
      taken := taken + {pid};
      return Done(pid);
    }

    /** The end of sys_fork: the child's copy of the PCB has its own pid and the caller's as parent_pid, and goes to the
        end of the list. */
    method ForkEnd(t: Id) returns (child: Id)
      requires t in procs && procs[t].life.Forking?
      modifies this
      ensures Now() == Processes.ForkEnd(old(Now()), t) && child == old(next)
    {
      child := next;
      var pcb := procs[t].(pid := procs[t].life.pid, life := Live);
      pcb := pcb.(parent := Some(procs[t].pid));
      procs := procs[t := procs[t].(life := Live)];
      procs := procs[child := pcb];
      all := all + [child];
      next := next + 1;
      forked := forked[child := t];
    }

    /** One round of sys_wait: up to giving back the child's pages, to -1, or to thread_block. */
    method SysWait(t: Id) returns (r: WaitReply)
      requires t in procs
      modifies this
      ensures (Now(), r) == WaitRound(old(Now()), t)
    {
      var found := FindHangingChild(procs[t].pid);
      if found.Some? {
        var c := found.value;
        var pid := procs[c].pid;
        procs := procs[t := procs[t].(life := Reaping(pid))];
        procs := procs - {c};
        all := Without(all, c);
        reaped := reaped + [(c, t)];
        return Reaps(c);
      }
      var child := FindChild(procs[t].pid);
      if child.None? {
        return NoChildren;
      }
      procs := procs[t := procs[t].(life := Waiting)];
      return Waits;
    }

    /** sys_exit up to the release of the process's resources; it panics for an orphan. */
    method SysExitBegin(t: Id) returns (ok: bool)
      requires t in procs && forall c :: c in all <==> c in procs
      modifies this
      ensures ok <==> ExitBegin(old(Now()), t).Done?
      ensures ok ==> Now() == ExitBegin(old(Now()), t).value
    {
      if procs[t].parent.None? {
        return false;
      }
      InitAdopt(procs[t].pid);
      procs := procs[t := procs[t].(life := Exiting)];
      return true;
    }

    /** The end of sys_exit. */
    method SysExitEnd(t: Id) returns (ok: bool)
      requires t in procs
      modifies this
      ensures ok <==> ExitEnd(old(Now()), t).Done?
      ensures ok ==> Now() == ExitEnd(old(Now()), t).value
    {
      if procs[t].parent.None? {
        return false;
      }
      var parent := PidToThread(procs[t].parent.value);
      if parent.None? {
        return false;
      }
      var p := parent.value;
      if procs[p].life == Waiting {
        procs := procs[p := procs[p].(life := Live)];
      }
      procs := procs[t := procs[t].(life := Hanging)];
      return true;
    }

    /** thread_exit for a thread without a parent: off the list, and its pid back. */
    method ThreadExit(t: Id)
      requires Inv(Now()) && Enabled(Now(), DoThreadExit(t))
      modifies this
      ensures Now() == Processes.ThreadExit(old(Now()), t) && Inv(Now())
    {
      hide Inv, Without;
      ThreadExitKeeps(Now(), t);
      var pid := procs[t].pid;
      procs := procs - {t};
      all := Without(all, t);
      reaped := reaped + [(t, t)];
      taken := taken - {pid};
    }

    /** The two halves of exit never fail, and keep what all steps keep. */
    method Exit(t: Id, second: bool) returns (ok: bool)
      requires Inv(Now()) && Enabled(Now(), if second then DoExitEnd(t) else DoExitBegin(t))
      modifies this
      ensures ok && Inv(Now())
    {
      hide Inv, ExitBegin, ExitEnd;
      ListHolds(Now());
      if second {
        ExitEndKeeps(Now(), t);
        ok := SysExitEnd(t);
      } else {
        ExitBeginKeeps(Now(), t);
        ok := SysExitBegin(t);
      }
    }

    /** sys_wait keeps it too, and says -1 exactly to a caller without children. */
    method Wait(t: Id) returns (r: WaitReply)
      requires Inv(Now()) && Enabled(Now(), DoWait(t))
      modifies this
      ensures Inv(Now()) && (r == NoChildren <==> forall c :: !ChildOf(old(Now()), c, old(procs)[t].pid))
    {
      hide Inv, WaitRound;
      WaitKeeps(Now(), t);
      r := SysWait(t);
    }
  }

  lemma ListHolds(w: World)
    requires Inv(w)
    ensures forall c :: c in w.all <==> c in w.procs
  {
    hide PidsInv, ParentsInv, WaitInv;
  }
}
