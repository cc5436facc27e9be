/** fork, wait and exit as steps of processes (src/userprog/wait_exit.c, src/userprog/fork.c,
    src/thread/thread.c): a step is what runs without a point where the process may be switched out. */
module Processes {
  import opened Results
  import opened Sequences

  /** A process by its number of birth, which is never used again, unlike its pid. */
  type Id = nat

  /** Live: doing anything else. Forking: it has taken a pid for its child. Reaping: it has taken a
      dead child off the list and is giving back its pages and its pid. Waiting, Hanging: the task
      statuses. Exiting: between giving its children to init and hanging. */
  datatype Life = Live | Forking(pid: nat) | Reaping(pid: nat) | Waiting | Exiting | Hanging

  datatype Proc = Proc(pid: nat, parent: Option<nat>, life: Life)

  /** all: thread_all_list. taken: the pid bitmap. next: the next number of birth. reaped: who was
      reaped, by whom; a thread that ended without a parent, by itself. forked: who was forked, by whom. */
  datatype World = World(all: seq<Id>, procs: map<Id, Proc>, taken: set<nat>, next: Id, reaped: seq<(Id, Id)>,
                         forked: map<Id, Id>)

  const INIT: nat := 1
  const PIDS: nat := 1024

  // ---------------------------------------------------------------------------------------
  // Walks along the list of all threads.

  predicate ChildOf(w: World, c: Id, pid: nat) {
    c in w.procs && w.procs[c].parent == Some(pid)
  }

  predicate HangingChildOf(w: World, c: Id, pid: nat) {
    ChildOf(w, c, pid) && w.procs[c].life == Hanging
  }

  /** The first hanging child in the list. */
  function FirstHanging(w: World, q: seq<Id>, pid: nat): (r: Option<Id>)
    ensures r.Some? ==> r.value in q && HangingChildOf(w, r.value, pid)
    ensures r.Some? ==> exists k :: 0 <= k < |q| && q[k] == r.value && forall j :: 0 <= j < k ==>
            !HangingChildOf(w, q[j], pid)
    ensures r.None? ==> forall c :: c in q ==> !HangingChildOf(w, c, pid)
  {
    if q == [] then None else if HangingChildOf(w, q[0], pid) then Some(q[0]) else FirstHanging(w, q[1..], pid)
  }

  function FirstChild(w: World, q: seq<Id>, pid: nat): (r: Option<Id>)
    ensures r.Some? ==> r.value in q && ChildOf(w, r.value, pid)
    ensures r.None? ==> forall c :: c in q ==> !ChildOf(w, c, pid)
  {
    if q == [] then None else if ChildOf(w, q[0], pid) then Some(q[0]) else FirstChild(w, q[1..], pid)
  }

  /** pid2thread. */
  function WithPid(w: World, q: seq<Id>, pid: nat): (r: Option<Id>)
    ensures r.Some? ==> r.value in q && r.value in w.procs && w.procs[r.value].pid == pid
    ensures r.None? ==> forall c :: c in q && c in w.procs ==> w.procs[c].pid != pid
  {
    if q == [] then None else if q[0] in w.procs && w.procs[q[0]].pid == pid then Some(q[0])
      else WithPid(w, q[1..], pid)
  }

  // ---------------------------------------------------------------------------------------
  // Steps.

  function SetLife(w: World, t: Id, life: Life): World
    requires t in w.procs
  {
    w.(procs := w.procs[t := w.procs[t].(life := life)])
  }

  /** The smallest pid that is not taken. */
  function FreePid(taken: set<nat>, from: nat): (r: Option<nat>)
    requires 1 <= from <= PIDS + 1
    ensures r.Some? ==> from <= r.value <= PIDS && r.value !in taken && forall p :: from <= p < r.value ==> p in taken
    ensures r.None? ==> forall p :: from <= p <= PIDS ==> p in taken
    decreases PIDS + 1 - from
  {
    if from > PIDS then None else if from !in taken then Some(from) else FreePid(taken, from + 1)
  }

  /** fork_pid. */
  function ForkPid(w: World, t: Id): Outcome<World>
    requires t in w.procs
  {
    match FreePid(w.taken, 1)
    case None => Exhausted
    case Some(pid) => Done(SetLife(w, t, Forking(pid)).(taken := w.taken + {pid}))
  }

  /** The end of sys_fork: the child is on the lists. */
  function ForkEnd(w: World, t: Id): World
    requires t in w.procs && w.procs[t].life.Forking?
  {
    var child := Proc(w.procs[t].life.pid, Some(w.procs[t].pid), Live);
    var n := SetLife(w, t, Live);
    n.(procs := n.procs[w.next := child], all := w.all + [w.next], next := w.next + 1, forked := w.forked[w.next := t])
  }

  datatype WaitReply = Reaps(child: Id) | NoChildren | Waits

  /** One round of the loop of sys_wait. */
  function WaitRound(w: World, t: Id): (r: (World, WaitReply))
    requires t in w.procs
  {
    var pid := w.procs[t].pid;
    match FirstHanging(w, w.all, pid)
    case Some(c) =>
      var n := SetLife(w, t, Reaping(w.procs[c].pid));
      (n.(procs := n.procs - {c}, all := Without(w.all, c), reaped := w.reaped + [(c, t)]), Reaps(c))
    case None =>
      if FirstChild(w, w.all, pid).None? then (w, NoChildren) else (SetLife(w, t, Waiting), Waits)
  }

  /** release_pid, at the end of reaping. */
  function ReleasePid(w: World, t: Id): World
    requires t in w.procs && w.procs[t].life.Reaping?
  {
    SetLife(w, t, Live).(taken := w.taken - {w.procs[t].life.pid})
  }

  /** All children of pid become init's. */
  function Adopt(procs: map<Id, Proc>, pid: nat): map<Id, Proc> {
    map c | c in procs :: if procs[c].parent == Some(pid) then procs[c].(parent := Some(INIT)) else procs[c]
  }

  /** sys_exit up to the release of the resources. */
  function ExitBegin(w: World, t: Id): Outcome<World>
    requires t in w.procs
  {
    if w.procs[t].parent.None? then AssertFailed
    else Done(SetLife(w.(procs := Adopt(w.procs, w.procs[t].pid)), t, Exiting))
  }

  /** The end of sys_exit: wake the parent if it waits, then hang. */
  function ExitEnd(w: World, t: Id): Outcome<World>
    requires t in w.procs
  {
    if w.procs[t].parent.None? then AssertFailed
    else
      match WithPid(w, w.all, w.procs[t].parent.value)
      case None => AssertFailed
      case Some(p) =>
        var n := if w.procs[p].life == Waiting then SetLife(w, p, Live) else w;
        Done(SetLife(n, t, Hanging))
  }

  /** thread_exit of a thread that nobody is going to reap. */
  function ThreadExit(w: World, t: Id): World
    requires t in w.procs
  {
    w.(procs := w.procs - {t}, all := Without(w.all, t), taken := w.taken - {w.procs[t].pid},
      reaped := w.reaped + [(t, t)])
  }

  datatype Step =
    | DoForkPid(t: Id) | DoForkEnd(t: Id) | DoWait(t: Id) | DoRelease(t: Id) | DoExitBegin(t: Id) | DoExitEnd(t: Id)
    | DoThreadExit(t: Id)

  /** Each process goes through its system calls in order; only children of somebody exit. A kernel
      thread that never forked, as main is, may end itself. */
  predicate Enabled(w: World, s: Step) {
    && s.t in w.procs
    && match s
       case DoForkPid(t) => w.procs[t].life == Live
       case DoForkEnd(t) => w.procs[t].life.Forking?
       case DoWait(t) => w.procs[t].life == Live
       case DoRelease(t) => w.procs[t].life.Reaping?
       case DoExitBegin(t) => w.procs[t].life == Live && w.procs[t].parent.Some?
       case DoExitEnd(t) => w.procs[t].life == Exiting
       case DoThreadExit(t) =>
         w.procs[t].life == Live && w.procs[t].parent.None? && w.procs[t].pid != INIT &&
         forall c :: c in w.procs ==> !ChildOf(w, c, w.procs[t].pid)
  }

  function Next(w: World, s: Step): Outcome<World>
    requires Enabled(w, s)
  {
    match s
    case DoForkPid(t) => ForkPid(w, t)
    case DoForkEnd(t) => Done(ForkEnd(w, t))
    case DoWait(t) => Done(WaitRound(w, t).0)
    case DoRelease(t) => Done(ReleasePid(w, t))
    case DoExitBegin(t) => ExitBegin(w, t)
    case DoExitEnd(t) => ExitEnd(w, t)
    case DoThreadExit(t) => Done(ThreadExit(w, t))
  }

  ghost predicate Legal(w: World, steps: seq<Step>)
    decreases |steps|
  {
    steps != [] ==> Enabled(w, steps[0]) && (Next(w, steps[0]).Done? ==> Legal(Next(w, steps[0]).value, steps[1..]))
  }

  function Run(w: World, steps: seq<Step>): Outcome<World>
    requires Legal(w, steps)
    decreases |steps|
  {
    if steps == [] then Done(w)
    else
      var n :- Next(w, steps[0]);
      Run(n, steps[1..])
  }

  // ---------------------------------------------------------------------------------------
  // What every step keeps.

  /** Process t accounts for the pid: as its own, or as the one it takes or gives back. */
  ghost predicate Claims(w: World, t: Id, own: bool, pid: nat) {
    && t in w.procs
    && if own then w.procs[t].pid == pid
       else (w.procs[t].life.Forking? || w.procs[t].life.Reaping?) && w.procs[t].life.pid == pid
  }

  /** No pid is accounted for twice, and all of them are taken in the bitmap. */
  ghost predicate PidsInv(w: World) {
    && (forall t, u, a, b, pid {:trigger Claims(w, t, a, pid), Claims(w, u, b, pid)} ::
          Claims(w, t, a, pid) && Claims(w, u, b, pid) ==> t == u && a == b)
    && (forall t, a, pid {:trigger Claims(w, t, a, pid)} :: Claims(w, t, a, pid) ==> pid in w.taken)
  }

  /** The process with this pid is there and has not begun to exit. */
  ghost predicate Alive(w: World, p: Id, pid: nat) {
    p in w.procs && w.procs[p].pid == pid && w.procs[p].life != Exiting && w.procs[p].life != Hanging
  }

  ghost predicate HasAlive(w: World, pid: nat) {
    exists p :: Alive(w, p, pid)
  }

  /** Every parent_pid but init's own names a live process, not the child itself. */
  ghost predicate ParentsInv(w: World) {
    && HasAlive(w, INIT)
    && (forall c :: c in w.procs && w.procs[c].parent.Some? ==>
          HasAlive(w, w.procs[c].parent.value) && w.procs[c].parent.value != w.procs[c].pid)
    && (forall c :: c in w.procs && w.procs[c].pid == INIT ==> w.procs[c].parent.None?)
    && (forall c :: c in w.procs && (w.procs[c].life == Exiting || w.procs[c].life == Hanging) ==>
       w.procs[c].parent.Some?)
  }

  /** A waiting parent, but init, has a child, and none that hangs. */
  ghost predicate WaitingOk(w: World, t: Id) {
    t in w.procs && w.procs[t].life == Waiting && w.procs[t].pid != INIT ==>
      (exists c :: ChildOf(w, c, w.procs[t].pid)) && forall c :: !HangingChildOf(w, c, w.procs[t].pid)
  }

  ghost predicate WaitInv(w: World) {
    forall t {:trigger WaitingOk(w, t)} :: WaitingOk(w, t)
  }

  /** The list holds the processes; everybody ever born is there or was reaped, not both, once. */
  ghost predicate BirthInv(w: World) {
    && (forall t :: t in w.all <==> t in w.procs)
    && (forall t :: t in w.procs ==> t < w.next)
    && (forall i, j :: 0 <= i < j < |w.reaped| ==> w.reaped[i].0 != w.reaped[j].0)
    && (forall i :: 0 <= i < |w.reaped| ==> w.reaped[i].0 < w.next && w.reaped[i].0 !in w.procs)
    && (forall t :: 0 <= t < w.next && t !in w.procs ==> exists i :: 0 <= i < |w.reaped| && w.reaped[i].0 == t)
  }

  ghost predicate Inv(w: World) {
    PidsInv(w) && ParentsInv(w) && WaitInv(w) && BirthInv(w)
  }

  // ---------------------------------------------------------------------------------------
  // A process changes its life.

  /** Only the lives of t and, from waiting to live, of others changed. */
  ghost predicate SameFamilies(w: World, n: World) {
    && n.procs.Keys == w.procs.Keys
    && (forall c :: c in w.procs ==> n.procs[c].pid == w.procs[c].pid && n.procs[c].parent == w.procs[c].parent)
  }

  lemma SamePids(w: World, n: World, t: Id)
    requires PidsInv(w) && SameFamilies(w, n) && n.taken == w.taken
    requires forall c :: c in w.procs && c != t ==>
             n.procs[c].life == w.procs[c].life || !(n.procs[c].life.Forking? || n.procs[c].life.Reaping?)
    requires t in w.procs ==> !(n.procs[t].life.Forking? || n.procs[t].life.Reaping?)
    ensures PidsInv(n)
  {
    forall c, a, pid | Claims(n, c, a, pid) ensures Claims(w, c, a, pid) {
    }
  }

  lemma SameParents(w: World, n: World)
    requires ParentsInv(w) && SameFamilies(w, n)
    requires forall c :: c in w.procs ==> (n.procs[c].life == Exiting <==> w.procs[c].life == Exiting)
    requires forall c :: c in w.procs && n.procs[c].life == Hanging ==> w.procs[c].life == Hanging
    ensures ParentsInv(n)
  {
    forall pid | HasAlive(w, pid) ensures HasAlive(n, pid) {
      var p :| Alive(w, p, pid);
      assert Alive(n, p, pid);
    }
  }

  /** Nobody but t changed, and t not from or to waiting or hanging. */
  lemma SameWaits(w: World, n: World, t: Id)
    requires WaitInv(w) && SameFamilies(w, n)
    requires forall c :: c in w.procs && c != t ==> n.procs[c].life == w.procs[c].life
    requires t in w.procs ==> n.procs[t].life != Waiting && n.procs[t].life != Hanging && w.procs[t].life != Hanging
    ensures WaitInv(n)
  {
    forall u ensures WaitingOk(n, u) {
      assert WaitingOk(w, u);
      if u in n.procs && n.procs[u].life == Waiting && n.procs[u].pid != INIT {
        var c :| ChildOf(w, c, w.procs[u].pid);
        assert ChildOf(n, c, n.procs[u].pid);
        forall d ensures !HangingChildOf(n, d, n.procs[u].pid) {
          assert !HangingChildOf(w, d, w.procs[u].pid);
        }
      }
    }
  }

  lemma PidOf(w: World, t: Id, u: Id)
    requires PidsInv(w) && t in w.procs && u in w.procs && w.procs[t].pid == w.procs[u].pid
    ensures t == u
  {
    assert Claims(w, t, true, w.procs[t].pid) && Claims(w, u, true, w.procs[t].pid);
  }

  /** A pid that is being taken or given back is nobody's own, nor anybody's parent's. */
  lemma PendingIsNobodys(w: World, t: Id)
    requires PidsInv(w) && ParentsInv(w) && t in w.procs && (w.procs[t].life.Forking? || w.procs[t].life.Reaping?)
    ensures forall c :: c in w.procs ==>
            w.procs[c].pid != w.procs[t].life.pid && w.procs[c].parent != Some(w.procs[t].life.pid)
  {
    var pid := w.procs[t].life.pid;
    assert Claims(w, t, false, pid);
    forall c | c in w.procs ensures w.procs[c].pid != pid && w.procs[c].parent != Some(pid) {
      assert Claims(w, c, true, w.procs[c].pid);
      if w.procs[c].parent.Some? {
        var p :| Alive(w, p, w.procs[c].parent.value);
        assert Claims(w, p, true, w.procs[c].parent.value);
      }
    }
  }

  // ---------------------------------------------------------------------------------------
  // Step by step.

  lemma ForkPidKeeps(w: World, t: Id)
    requires Inv(w) && Enabled(w, DoForkPid(t))
    ensures !ForkPid(w, t).AssertFailed? && (ForkPid(w, t).Done? ==> Inv(ForkPid(w, t).value))
    ensures ForkPid(w, t).Exhausted? <==> forall pid :: 1 <= pid <= 1024 ==> pid in w.taken
    ensures ForkPid(w, t).Done? ==>
              exists pid :: 1 <= pid <= 1024 && pid !in w.taken && (forall q :: 1 <= q < pid ==> q in w.taken)
                && ForkPid(w, t).value ==
                   w.(procs := w.procs[t := w.procs[t].(life := Forking(pid))], taken := w.taken + {pid})
  {
    hide PidsInv, ParentsInv, WaitInv, BirthInv, FreePid;
    var r := ForkPid(w, t);
    if r.Done? {
      ForkPidPids(w, t, r.value, r.value.procs[t].life.pid);
      SameParents(w, r.value);
      SameWaits(w, r.value, t);
      SameBirths(w, r.value);
    }
  }

  lemma ForkPidPids(w: World, t: Id, n: World, pid: nat)
    requires PidsInv(w) && t in w.procs && w.procs[t].life == Live && pid !in w.taken
    requires n == SetLife(w, t, Forking(pid)).(taken := w.taken + {pid})
    ensures PidsInv(n)
  {
    forall u, a, p | Claims(n, u, a, p) ensures Claims(w, u, a, p) || (u == t && !a && p == pid) {
    }
  }

  /** Exactly one process is new, the last of the list; it has the pid that was taken, and is a child of the caller.
      The pid may be recycled: no process has it as its parent. Nobody else changes. */
  lemma ForkEndKeeps(w: World, t: Id)
    requires Inv(w) && Enabled(w, DoForkEnd(t))
    ensures Inv(ForkEnd(w, t))
    ensures forall c :: !ChildOf(ForkEnd(w, t), c, w.procs[t].life.pid)
    ensures var n, c := ForkEnd(w, t), w.next;
            && c !in w.procs && n.all == w.all + [c] && n.procs.Keys == w.procs.Keys + {c} && n.taken == w.taken
            && n.procs[c].pid == w.procs[t].life.pid && n.procs[c].life == Live && ChildOf(n, c, w.procs[t].pid)
            && n.procs[t].life == Live && n.procs[t].pid == w.procs[t].pid && n.procs[t].parent == w.procs[t].parent
            && forall u :: u in w.procs && u != t ==> n.procs[u] == w.procs[u]
  {
    hide PidsInv, ParentsInv, WaitInv, BirthInv;
    var n := ForkEnd(w, t);
    assert w.next !in w.procs by { NotBorn(w); }
    PendingIsNobodys(w, t);
    ForkEndPids(w, t);
    ForkEndParents(w, t);
    ForkEndWaits(w, t);
    ForkEndBirths(w, t);
  }

  lemma NotBorn(w: World)
    requires BirthInv(w)
    ensures w.next !in w.procs && w.next !in w.all
  {
  }

  lemma ForkEndPids(w: World, t: Id)
    requires PidsInv(w) && Enabled(w, DoForkEnd(t)) && w.next !in w.procs
    ensures PidsInv(ForkEnd(w, t))
  {
    var n := ForkEnd(w, t);
    assert Claims(w, t, false, w.procs[t].life.pid);
    forall u, a, pid | Claims(n, u, a, pid)
      ensures if u == w.next then a && Claims(w, t, false, pid) else Claims(w, u, a, pid) && (u == t ==> a)
    {
    }
  }

  lemma ForkEndParents(w: World, t: Id)
    requires ParentsInv(w) && PidsInv(w) && Enabled(w, DoForkEnd(t)) && w.next !in w.procs
    requires forall c :: c in w.procs ==> w.procs[c].pid != w.procs[t].life.pid
    ensures ParentsInv(ForkEnd(w, t))
  {
    hide PidsInv;
    var n := ForkEnd(w, t);
    forall pid | HasAlive(w, pid) ensures HasAlive(n, pid) {
      var p :| Alive(w, p, pid);
      assert Alive(n, p, pid);
    }
    assert Alive(n, t, w.procs[t].pid);
    var i :| Alive(w, i, INIT);
  }

  lemma ForkEndWaits(w: World, t: Id)
    requires WaitInv(w) && Enabled(w, DoForkEnd(t)) && w.next !in w.procs
    ensures WaitInv(ForkEnd(w, t))
  {
    var n := ForkEnd(w, t);
    forall u ensures WaitingOk(n, u) {
      assert WaitingOk(w, u);
      if u in n.procs && n.procs[u].life == Waiting && n.procs[u].pid != INIT {
        var c :| ChildOf(w, c, w.procs[u].pid);
        assert ChildOf(n, c, n.procs[u].pid);
        forall d ensures !HangingChildOf(n, d, n.procs[u].pid) {
          assert !HangingChildOf(w, d, w.procs[u].pid);
        }
      }
    }
  }

  lemma ForkEndBirths(w: World, t: Id)
    requires BirthInv(w) && Enabled(w, DoForkEnd(t))
    ensures BirthInv(ForkEnd(w, t))
  {
  }

  /** sys_wait: it reaps a hanging child of the caller, returns -1 iff there is no child, or waits. */
  lemma WaitKeeps(w: World, t: Id)
    requires Inv(w) && Enabled(w, DoWait(t))
    ensures var (n, r) := WaitRound(w, t);
            && Inv(n) && n.taken == w.taken && n.next == w.next && n.forked == w.forked && t in n.procs
            && (forall u :: u in n.procs && u != t ==> u in w.procs && n.procs[u] == w.procs[u])
            && n.procs[t].pid == w.procs[t].pid && n.procs[t].parent == w.procs[t].parent
            && (r.Reaps? ==>
               n.procs.Keys == w.procs.Keys - {r.child} && n.procs[t].life == Reaping(w.procs[r.child].pid))
            && (r.Reaps? ==> exists k ::
                  0 <= k < |w.all| && w.all[k] == r.child
                  && forall j :: 0 <= j < k ==> !HangingChildOf(w, w.all[j], w.procs[t].pid))
            && (!r.Reaps? ==> n.procs.Keys == w.procs.Keys && n.reaped == w.reaped)
            && (r == NoChildren ==> n == w)
            && (r == NoChildren <==> forall c :: !ChildOf(w, c, w.procs[t].pid))
            && (r.Reaps? ==>
               HangingChildOf(w, r.child, w.procs[t].pid) && r.child !in n.procs
                 && n.reaped == w.reaped + [(r.child, t)])
            && (r == Waits ==> n.procs[t].life == Waiting)
  {
    hide PidsInv, ParentsInv, WaitInv, BirthInv, FirstHanging, FirstChild, Without;
    AllListed(w);
    var (n, r) := WaitRound(w, t);
    match r {
      case Reaps(c) =>
        ReapPids(w, t, c);
        ReapParents(w, t, c);
        ReapWaits(w, t, c);
        ReapBirths(w, t, c);
      case NoChildren =>
      case Waits =>
        SamePids(w, n, t);
        SameParents(w, n);
        StartsWaiting(w, t);
        SameBirths(w, n);
    }
  }

  lemma AllListed(w: World)
    requires BirthInv(w)
    ensures forall t :: t in w.all <==> t in w.procs
  {
  }

  lemma SameBirths(w: World, n: World)
    requires BirthInv(w) && n.all == w.all && n.next == w.next && n.reaped == w.reaped && n.procs.Keys == w.procs.Keys
    ensures BirthInv(n)
  {
  }

  lemma StartsWaiting(w: World, t: Id)
    requires WaitInv(w) && t in w.procs && w.procs[t].life == Live
    requires (exists c :: ChildOf(w, c, w.procs[t].pid)) && forall c :: !HangingChildOf(w, c, w.procs[t].pid)
    ensures WaitInv(SetLife(w, t, Waiting))
  {
    var n := SetLife(w, t, Waiting);
    forall u ensures WaitingOk(n, u) {
      assert WaitingOk(w, u);
      if u in n.procs && n.procs[u].life == Waiting && n.procs[u].pid != INIT {
        var c :| ChildOf(w, c, w.procs[u].pid);
        assert ChildOf(n, c, n.procs[u].pid);
        forall d ensures !HangingChildOf(n, d, n.procs[u].pid) {
          assert !HangingChildOf(w, d, w.procs[u].pid);
        }
      }
    }
  }

  /** The world when t reaps c. */
  function Reaped(w: World, t: Id, c: Id): World
    requires t in w.procs && c in w.procs
  {
    var n := SetLife(w, t, Reaping(w.procs[c].pid));
    n.(procs := n.procs - {c}, all := Without(w.all, c), reaped := w.reaped + [(c, t)])
  }

  lemma ReapPids(w: World, t: Id, c: Id)
    requires PidsInv(w) && t in w.procs && w.procs[t].life == Live && HangingChildOf(w, c, w.procs[t].pid)
    ensures PidsInv(Reaped(w, t, c))
  {
    hide Without;
    var n := Reaped(w, t, c);
    assert Claims(w, c, true, w.procs[c].pid);
    forall u, a, pid | Claims(n, u, a, pid)
      ensures if u == t && !a then Claims(w, c, true, pid) else Claims(w, u, a, pid) && u != c
    {
    }
  }

  lemma ReapParents(w: World, t: Id, c: Id)
    requires PidsInv(w) && ParentsInv(w) && t in w.procs && w.procs[t].life == Live
             && HangingChildOf(w, c, w.procs[t].pid)
    ensures ParentsInv(Reaped(w, t, c))
  {
    hide PidsInv, Without;
    var n := Reaped(w, t, c);
    forall pid | HasAlive(w, pid) ensures HasAlive(n, pid) {
      var p :| Alive(w, p, pid);
      assert Alive(n, p, pid);
    }
  }

  lemma ReapWaits(w: World, t: Id, c: Id)
    requires PidsInv(w) && WaitInv(w) && t in w.procs && w.procs[t].life == Live && HangingChildOf(w, c, w.procs[t].pid)
    ensures WaitInv(Reaped(w, t, c))
  {
    hide PidsInv, Without;
    var n := Reaped(w, t, c);
    forall u ensures WaitingOk(n, u) {
      assert WaitingOk(w, u);
      if u in n.procs && n.procs[u].life == Waiting && n.procs[u].pid != INIT {
        var d :| ChildOf(w, d, w.procs[u].pid);
        assert !HangingChildOf(w, c, w.procs[u].pid);
        assert ChildOf(n, d, n.procs[u].pid);
        forall e ensures !HangingChildOf(n, e, n.procs[u].pid) {
          assert !HangingChildOf(w, e, w.procs[u].pid);
        }
      }
    }
  }

  lemma ReapBirths(w: World, t: Id, c: Id)
    requires BirthInv(w) && t in w.procs && c in w.procs && c != t
    ensures BirthInv(Reaped(w, t, c))
  {
    BirthsWithout(w, Reaped(w, t, c), c, t);
  }

  /** One process less on the list, one more on record. */
  lemma BirthsWithout(w: World, n: World, c: Id, r: Id)
    requires BirthInv(w) && c in w.procs && n.procs.Keys == w.procs.Keys - {c} && n.all == Without(w.all, c)
    requires n.reaped == w.reaped + [(c, r)] && n.next == w.next
    ensures BirthInv(n)
  {
    forall u | 0 <= u < n.next && u !in n.procs ensures exists i :: 0 <= i < |n.reaped| && n.reaped[i].0 == u {
      if u == c {
        assert n.reaped[|w.reaped|].0 == c;
      } else {
        var i :| 0 <= i < |w.reaped| && w.reaped[i].0 == u;
        assert n.reaped[i].0 == u;
      }
    }
  }

  lemma ReleaseKeeps(w: World, t: Id)
    requires Inv(w) && Enabled(w, DoRelease(t))
    ensures Inv(ReleasePid(w, t))
    ensures w.procs[t].life.pid in w.taken
    ensures ReleasePid(w, t) ==
            w.(procs := w.procs[t := w.procs[t].(life := Live)], taken := w.taken - {w.procs[t].life.pid})
    ensures forall c :: !ChildOf(ReleasePid(w, t), c, w.procs[t].life.pid)
  {
    hide ParentsInv, WaitInv, BirthInv, WaitingOk;
    var n := ReleasePid(w, t);
    PendingIsNobodys(w, t);
    assert Claims(w, t, false, w.procs[t].life.pid);
    forall u, a, pid | Claims(n, u, a, pid) ensures Claims(w, u, a, pid) && pid != w.procs[t].life.pid {
      assert Claims(w, u, a, pid);
    }
    SameParents(w, n);
    SameWaits(w, n, t);
    SameBirths(w, n);
  }

  /** sys_exit, first part: all children are init's now, and init is alive. */
  lemma ExitBeginKeeps(w: World, t: Id)
    requires Inv(w) && Enabled(w, DoExitBegin(t))
    ensures ExitBegin(w, t).Done? && Inv(ExitBegin(w, t).value)
    ensures forall c :: !ChildOf(ExitBegin(w, t).value, c, w.procs[t].pid)
    ensures ExitBegin(w, t).value == w.(procs := ExitBegin(w, t).value.procs)
    ensures ExitBegin(w, t).value.procs.Keys == w.procs.Keys
    ensures forall c :: c in w.procs ==> ExitBegin(w, t).value.procs[c] == Proc(
              w.procs[c].pid, if w.procs[c].parent == Some(w.procs[t].pid) then Some(1) else w.procs[c].parent,
              if c == t then Exiting else w.procs[c].life)
  {
    hide PidsInv, ParentsInv, WaitInv, BirthInv;
    var n := ExitBegin(w, t).value;
    NotInit(w, t);
    ExitBeginPids(w, t);
    ExitBeginParents(w, t);
    ExitBeginWaits(w, t);
    SameBirths(w, n);
  }

  lemma NotInit(w: World, t: Id)
    requires ParentsInv(w) && t in w.procs && w.procs[t].parent.Some?
    ensures w.procs[t].pid != INIT
  {
  }

  lemma ExitBeginPids(w: World, t: Id)
    requires PidsInv(w) && Enabled(w, DoExitBegin(t))
    ensures PidsInv(ExitBegin(w, t).value)
  {
    var n := ExitBegin(w, t).value;
    forall u, a, pid | Claims(n, u, a, pid) ensures Claims(w, u, a, pid) {
    }
  }

  lemma ExitBeginParents(w: World, t: Id)
    requires ParentsInv(w) && Enabled(w, DoExitBegin(t)) && w.procs[t].pid != INIT
    ensures ParentsInv(ExitBegin(w, t).value)
  {
    var n := ExitBegin(w, t).value;
    forall pid | HasAlive(w, pid) && pid != w.procs[t].pid ensures HasAlive(n, pid) {
      var p :| Alive(w, p, pid);
      assert Alive(n, p, pid);
    }
  }

  lemma ExitBeginWaits(w: World, t: Id)
    requires WaitInv(w) && PidsInv(w) && Enabled(w, DoExitBegin(t)) && w.procs[t].pid != INIT
    ensures WaitInv(ExitBegin(w, t).value)
  {
    hide PidsInv;
    var n := ExitBegin(w, t).value;
    forall u ensures WaitingOk(n, u) {
      assert WaitingOk(w, u);
      if u in n.procs && n.procs[u].life == Waiting && n.procs[u].pid != INIT {
        if w.procs[u].pid == w.procs[t].pid {
          PidOf(w, u, t);
        }
        var c :| ChildOf(w, c, w.procs[u].pid);
        assert ChildOf(n, c, n.procs[u].pid);
        forall d ensures !HangingChildOf(n, d, n.procs[u].pid) {
          assert !HangingChildOf(w, d, w.procs[u].pid);
        }
      }
    }
  }

  /** sys_exit, last part: the parent is found, init or not, and if it waits it is woken; nobody else changes. */
  lemma ExitEndKeeps(w: World, t: Id)
    requires Inv(w) && Enabled(w, DoExitEnd(t))
    ensures ExitEnd(w, t).Done? && Inv(ExitEnd(w, t).value)
    ensures w.procs[t].parent.Some? && ExitEnd(w, t).value == w.(procs := ExitEnd(w, t).value.procs)
    ensures ExitEnd(w, t).value.procs.Keys == w.procs.Keys
    ensures forall c :: c in w.procs ==> ExitEnd(w, t).value.procs[c] == w.procs[c].(life :=
              if c == t then Hanging
              else if w.procs[c].pid == w.procs[t].parent.value && w.procs[c].life == Waiting then Live
              else w.procs[c].life)
  {
    hide PidsInv, ParentsInv, WaitInv, BirthInv, WithPid;
    AllListed(w);
    ParentFound(w, t);
    var n := ExitEnd(w, t).value;
    var p := WithPid(w, w.all, w.procs[t].parent.value).value;
    forall c | c in w.procs && w.procs[c].pid == w.procs[t].parent.value ensures c == p {
      PidOf(w, c, p);
    }
    SamePids(w, n, t);
    ExitEndParents(w, t);
    ExitEndWaits(w, t);
    SameBirths(w, n);
  }

  lemma ParentFound(w: World, t: Id)
    requires ParentsInv(w) && t in w.procs && w.procs[t].life == Exiting && forall c :: c in w.all <==> c in w.procs
    ensures w.procs[t].parent.Some? && WithPid(w, w.all, w.procs[t].parent.value).Some?
    ensures WithPid(w, w.all, w.procs[t].parent.value) != Some(t)
  {
    var p :| Alive(w, p, w.procs[t].parent.value);
    assert p in w.all;
  }

  lemma ExitEndParents(w: World, t: Id)
    requires ParentsInv(w) && Enabled(w, DoExitEnd(t)) && ExitEnd(w, t).Done?
    ensures ParentsInv(ExitEnd(w, t).value)
  {
    hide WithPid;
    var n := ExitEnd(w, t).value;
    forall pid | HasAlive(w, pid) ensures HasAlive(n, pid) {
      var p :| Alive(w, p, pid);
      assert Alive(n, p, pid);
    }
  }

  lemma ExitEndWaits(w: World, t: Id)
    requires WaitInv(w) && PidsInv(w) && Enabled(w, DoExitEnd(t)) && ExitEnd(w, t).Done?
    requires w.procs[t].parent.Some? && WithPid(w, w.all, w.procs[t].parent.value) != Some(t)
    ensures WaitInv(ExitEnd(w, t).value)
  {
    hide PidsInv, WithPid;
    var n := ExitEnd(w, t).value;
    var p := WithPid(w, w.all, w.procs[t].parent.value).value;
    forall u ensures WaitingOk(n, u) {
      assert WaitingOk(w, u);
      if u in n.procs && n.procs[u].life == Waiting && n.procs[u].pid != INIT {
        NotTheParent(w, t, p, u);
        var c :| ChildOf(w, c, w.procs[u].pid);
        assert ChildOf(n, c, n.procs[u].pid);
        forall d ensures !HangingChildOf(n, d, n.procs[u].pid) {
          assert !HangingChildOf(w, d, w.procs[u].pid);
        }
      }
    }
  }

  lemma NotTheParent(w: World, t: Id, p: Id, u: Id)
    requires PidsInv(w) && t in w.procs && p in w.procs && u in w.procs && w.procs[t].parent == Some(w.procs[p].pid)
             && u != p
    ensures !ChildOf(w, t, w.procs[u].pid)
  {
    hide PidsInv;
    if w.procs[u].pid == w.procs[p].pid {
      PidOf(w, u, p);
    }
  }

  /** thread_exit of a thread without parent and children: its pid is nobody's, nor a parent_pid. */
  lemma ThreadExitKeeps(w: World, t: Id)
    requires Inv(w) && Enabled(w, DoThreadExit(t))
    ensures Inv(ThreadExit(w, t))
    ensures forall c :: c in ThreadExit(w, t).procs ==> ThreadExit(w, t).procs[c].pid != w.procs[t].pid
    ensures forall c :: !ChildOf(ThreadExit(w, t), c, w.procs[t].pid)
    ensures var n := ThreadExit(w, t);
            && n.procs.Keys == w.procs.Keys - {t} && (forall u :: u in n.procs ==> n.procs[u] == w.procs[u])
            && w.procs[t].pid in w.taken && n.taken == w.taken - {w.procs[t].pid}
  {
    hide PidsInv, ParentsInv, WaitInv, BirthInv, Without;
    var n := ThreadExit(w, t);
    forall c | c in n.procs ensures n.procs[c].pid != w.procs[t].pid {
      if w.procs[c].pid == w.procs[t].pid {
        PidOf(w, t, c);
      }
    }
    OwnTaken(w, t);
    ThreadExitPids(w, t);
    ThreadExitParents(w, t);
    ThreadExitWaits(w, t);
    BirthsWithout(w, n, t, t);
  }

  lemma OwnTaken(w: World, t: Id)
    requires PidsInv(w) && t in w.procs
    ensures w.procs[t].pid in w.taken
  {
    assert Claims(w, t, true, w.procs[t].pid);
  }

  lemma ThreadExitPids(w: World, t: Id)
    requires PidsInv(w) && Enabled(w, DoThreadExit(t))
    ensures PidsInv(ThreadExit(w, t))
  {
    hide Without;
    var n := ThreadExit(w, t);
    assert Claims(w, t, true, w.procs[t].pid);
    forall u, a, pid | Claims(n, u, a, pid) ensures Claims(w, u, a, pid) && pid in n.taken {
      assert Claims(w, u, a, pid);
    }
  }

  lemma ThreadExitParents(w: World, t: Id)
    requires PidsInv(w) && ParentsInv(w) && Enabled(w, DoThreadExit(t))
    ensures ParentsInv(ThreadExit(w, t))
  {
    hide PidsInv, Without;
    var n := ThreadExit(w, t);
    forall pid | HasAlive(w, pid) && pid != w.procs[t].pid ensures HasAlive(n, pid) {
      var p :| Alive(w, p, pid);
      assert Alive(n, p, pid);
    }
    forall c | c in n.procs && n.procs[c].parent.Some?
      ensures HasAlive(n, n.procs[c].parent.value) && n.procs[c].parent.value != n.procs[c].pid
    {
      assert !ChildOf(w, c, w.procs[t].pid);
    }
  }

  lemma ThreadExitWaits(w: World, t: Id)
    requires WaitInv(w) && Enabled(w, DoThreadExit(t))
    ensures WaitInv(ThreadExit(w, t))
  {
    hide Without;
    var n := ThreadExit(w, t);
    forall u ensures WaitingOk(n, u) {
      assert WaitingOk(w, u);
      if u in n.procs && n.procs[u].life == Waiting && n.procs[u].pid != INIT {
        var c :| ChildOf(w, c, w.procs[u].pid);
        assert ChildOf(n, c, n.procs[u].pid);
        forall d ensures !HangingChildOf(n, d, n.procs[u].pid) {
          assert !HangingChildOf(w, d, w.procs[u].pid);
        }
      }
    }
  }

  // ---------------------------------------------------------------------------------------
  // All runs.

  /** Every step keeps the invariant, no PANIC fires and no parent is missing; only pids can run out. */
  lemma StepKeeps(w: World, s: Step)
    requires Inv(w) && Enabled(w, s)
    ensures !Next(w, s).AssertFailed? && (Next(w, s).Done? ==> Inv(Next(w, s).value))
  {
    hide Inv, ForkPid, ForkEnd, WaitRound, ReleasePid, ExitBegin, ExitEnd, ThreadExit;
    match s {
      case DoForkPid(t) => ForkPidKeeps(w, t);
      case DoForkEnd(t) => ForkEndKeeps(w, t);
      case DoWait(t) => WaitKeeps(w, t);
      case DoRelease(t) => ReleaseKeeps(w, t);
      case DoExitBegin(t) => ExitBeginKeeps(w, t);
      case DoExitEnd(t) => ExitEndKeeps(w, t);
      case DoThreadExit(t) => ThreadExitKeeps(w, t);
    }
  }

  lemma {:induction false} RunKeeps(w: World, steps: seq<Step>)
    requires Inv(w) && Legal(w, steps)
    ensures !Run(w, steps).AssertFailed? && (Run(w, steps).Done? ==> Inv(Run(w, steps).value))
    decreases |steps|
  {
    hide Inv, Next, Enabled;
    if steps != [] {
      StepKeeps(w, steps[0]);
      if Next(w, steps[0]).Done? {
        RunKeeps(Next(w, steps[0]).value, steps[1..]);
      }
    }
  }

  /** init, the main thread and the idle thread, without parents. */
  function Booted(): World {
    World([0, 1, 2], map[0 := Proc(1, None, Live), 1 := Proc(2, None, Live), 2 := Proc(3, None, Live)], {1, 2, 3}, 3,
          [], map[])
  }

  lemma BootedInv()
    ensures Inv(Booted())
  {
    hide PidsInv, ParentsInv, WaitInv, BirthInv;
    BootedPids();
    BootedParents();
    BootedBirths();
  }

  lemma BootedPids()
    ensures PidsInv(Booted()) && WaitInv(Booted())
  {
  }

  lemma BootedParents()
    ensures ParentsInv(Booted())
  {
    assert Alive(Booted(), 0, INIT);
  }

  lemma BootedBirths()
    ensures BirthInv(Booted())
  {
  }

  /** In every run from the start: a parent_pid names one live process that has not begun to exit;
      each process was reaped (or ended itself) at most once, and is either still there or was; a waiting parent
      other than init has a child and no hanging one; no pid in use is free in the bitmap. */
  lemma WaitAndExitInAllRuns(steps: seq<Step>)
    requires Legal(Booted(), steps)
    ensures !Run(Booted(), steps).AssertFailed?
    ensures Run(Booted(), steps).Done? ==>
              var n := Run(Booted(), steps).value;
              && (forall c :: c in n.procs && n.procs[c].parent.Some? ==> HasAlive(n, n.procs[c].parent.value))
              && (forall t, u :: t in n.procs && u in n.procs && n.procs[t].pid == n.procs[u].pid ==> t == u)
              && (forall t :: 0 <= t < n.next ==>
                 (t in n.procs <==> forall i :: 0 <= i < |n.reaped| ==> n.reaped[i].0 != t))
              && (forall i, j :: 0 <= i < j < |n.reaped| ==> n.reaped[i].0 != n.reaped[j].0)
              && (forall t :: WaitingOk(n, t))
              && (forall t :: t in n.procs ==> n.procs[t].pid in n.taken)
  {
    hide Legal, Run, WaitingOk, HasAlive;
    BootedInv();
    RunKeeps(Booted(), steps);
    if Run(Booted(), steps).Done? {
      var n := Run(Booted(), steps).value;
      forall t, u | t in n.procs && u in n.procs && n.procs[t].pid == n.procs[u].pid ensures t == u {
        PidOf(n, t, u);
      }
      forall t | t in n.procs ensures n.procs[t].pid in n.taken {
        assert Claims(n, t, true, n.procs[t].pid);
      }
    }
  }
}
