/** The one-byte sharer counters never wrap around: every process holds 25 frames of the kernel
    pool, and the pool is too small for more than 156 processes. */
module CowBound {
  import opened Cow
  import opened CowInvariants
  import opened Sets

  lemma {:induction false} FirstsBound(refs: set<(Pid, nat)>, procs: set<Pid>)
    requires forall k :: k in refs ==> k.0 in procs
    requires forall k, l :: k in refs && l in refs ==> k.1 == l.1
    ensures |refs| <= |procs|
    decreases refs
  {
    if k :| k in refs {
      FirstsBound(refs - {k}, procs - {k.0});
    }
  }

  ghost function OwnFrames(m: Memory, ps: set<Pid>): set<nat>
    requires ps <= m.procs.Keys
  {
    set p, x | p in ps && x in m.procs[p].own :: x
  }

  lemma OwnFrameOnce(m: Memory, p: Pid, j: nat, q: Pid, k: nat)
    requires SlotInv(m) && p in m.procs && q in m.procs && j < |m.procs[p].own| && k < |m.procs[q].own|
    requires m.procs[p].own[j] == m.procs[q].own[k]
    ensures p == q && j == k
  {
    assert SlotFrame(m, OwnSlot(p, j)) == SlotFrame(m, OwnSlot(q, k));
    assert OwnSlot(p, j) == OwnSlot(q, k);
  }

  /** Every process holds 25 kernel frames of its own. */
  lemma {:induction false} OwnCount(m: Memory, ps: set<Pid>)
    requires SlotInv(m) && ProcsInv(m) && ps <= m.procs.Keys
    ensures |OwnFrames(m, ps)| == OWN * |ps|
    decreases ps
  {
    if p :| p in ps {
      OwnCount(m, ps - {p});
      OwnDistinct(m, p);
      ElementsCount(m.procs[p].own);
      OwnFramesApart(m, ps - {p}, p);
      assert OwnFrames(m, ps) == OwnFrames(m, ps - {p}) + Elements(m.procs[p].own);
      assert |ps| == |ps - {p}| + 1;
    } else {
      assert OwnFrames(m, ps) == {};
    }
  }

  lemma OwnDistinct(m: Memory, p: Pid)
    requires SlotInv(m) && p in m.procs
    ensures var own := m.procs[p].own; forall i, j :: 0 <= i < j < |own| ==> own[i] != own[j]
  {
    var own := m.procs[p].own;
    forall i, j | 0 <= i < j < |own| && own[i] == own[j] ensures false {
      OwnFrameOnce(m, p, i, p, j);
    }
  }

  lemma OwnFramesApart(m: Memory, ps: set<Pid>, p: Pid)
    requires SlotInv(m) && p in m.procs && ps <= m.procs.Keys && p !in ps
    ensures OwnFrames(m, ps) !! Elements(m.procs[p].own)
  {
    forall x | x in OwnFrames(m, ps) && x in Elements(m.procs[p].own) ensures false {
      var q :| q in ps && x in m.procs[q].own;
      var j :| 0 <= j < |m.procs[q].own| && m.procs[q].own[j] == x;
      var k :| 0 <= k < |m.procs[p].own| && m.procs[p].own[k] == x;
      OwnFrameOnce(m, q, j, p, k);
    }
  }

  /** The kernel pool cannot hold more than 156 processes, so no frame has more sharers than
      that: the one-byte counter never wraps around. */
  lemma SharersFitInByte(m: Memory, f: nat)
    requires Core(m) && Spot(m)
    ensures |m.procs| <= 156
    ensures |PageRefs(m, f)| <= |m.procs.Keys| <= 156
  {
    OwnCount(m, m.procs.Keys);
    var all := Range(0, |m.kbits|);
    RangeFacts(0, |m.kbits|);
    RangeSize(0, |m.kbits|);
    forall x | x in OwnFrames(m, m.procs.Keys) ensures x in all {
      var p :| p in m.procs && x in m.procs[p].own;
      var k :| 0 <= k < |m.procs[p].own| && m.procs[p].own[k] == x;
      assert Held(m, OwnSlot(p, k));
    }
    SubsetCount(OwnFrames(m, m.procs.Keys), all);
    forall k | k in PageRefs(m, f) ensures k.0 in m.procs.Keys {
      assert EntryOk(m, k);
    }
    FirstsBound(PageRefs(m, f), m.procs.Keys);
    assert |m.procs| == |m.procs.Keys|;
  }
}
