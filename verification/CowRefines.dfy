/** Copy-on-write fork refines eager fork: every operation of the shared-frame memory does to the
    pages that the processes see what it would do had every fork copied all pages. */
module CowRefines {
  import opened Cow
  import opened CowInvariants

  // ---------------------------------------------------------------------------------------
  // What the processes see: private pages, no frames.

  datatype Eager = Eager(procs: set<Pid>, pages: map<(Pid, nat), Page>)

  ghost function View(m: Memory): map<(Pid, nat), Page> {
    map k | k in m.pte && m.pte[k].frame < |m.data| :: m.data[m.pte[k].frame]
  }

  ghost function Abs(m: Memory): Eager {
    Eager(m.procs.Keys, View(m))
  }

  lemma ViewKeys(m: Memory)
    requires Core(m)
    ensures View(m).Keys == m.pte.Keys
  {
    forall k | k in m.pte ensures k in View(m) {
      assert EntryOk(m, k);
    }
  }

  /** Copying all pages of p to c, as copy_body_stack3 does. */
  ghost function CopyAll(pages: map<(Pid, nat), Page>, p: Pid, c: Pid): map<(Pid, nat), Page>
    requires p != c
  {
    map k: (Pid, nat) | k in pages.Keys + (set l: (Pid, nat) | l in pages && l.0 == p :: (c, l.1)) ::
      if k.0 == c && (p, k.1) in pages then pages[(p, k.1)] else pages[k]
  }

  // ---------------------------------------------------------------------------------------
  // Taking kernel frames.

  lemma UnusedData(m: Memory, f: nat, page: Page)
    requires Core(m) && f < |m.data| && PageRefs(m, f) == {}
    ensures View(m.(data := m.data[f := page])) == View(m)
  {
    forall k | k in m.pte ensures m.pte[k].frame != f {
      assert k !in PageRefs(m, f);
    }
  }

  lemma PallocView(m: Memory, kernel: bool)
    requires Core(m) && Palloc(m, kernel).Done?
    ensures View(Palloc(m, kernel).value.0) == View(m)
  {
  }

  /** One zeroed kernel frame. */
  lemma KernelPageKeeps(m: Memory)
    requires Core(m) && Palloc(m, true).Done?
    ensures var (n0, f) := Palloc(m, true).value; var n := n0.(data := n0.data[f := ZeroPage()]);
            Core(n) && SameUse(m, n) && View(n) == View(m) && Loose(n, f) && f < |n.kbits|
            && forall g :: Loose(m, g) ==> Loose(n, g) && g != f
  {
    var (n0, f) := Palloc(m, true).value;
    PallocKeeps(m, true);
    DataKeeps(n0, n0.data[f := ZeroPage()]);
    UnusedData(n0, f, ZeroPage());
    forall g | Loose(m, g) ensures Loose(n0, g) && g != f {
      PallocLoose(m, true, g);
    }
  }

  /** From m to k the kernel frames fs were taken, nothing else that shows. */
  ghost predicate Batch(m: Memory, k: Memory, fs: seq<nat>) {
    && Core(k) && SameUse(m, k) && View(k) == View(m)
    && (forall j :: 0 <= j < |fs| ==> Loose(k, fs[j]) && fs[j] < |k.kbits|)
    && (forall i, j :: 0 <= i < j < |fs| ==> fs[i] != fs[j])
    && (forall g :: Loose(m, g) ==> Loose(k, g) && g !in fs)
  }

  lemma BatchThen(m: Memory, k: Memory, fs: seq<nat>, l: Memory, gs: seq<nat>)
    requires Batch(m, k, fs) && Batch(k, l, gs)
    ensures Batch(m, l, fs + gs)
  {
    var all := fs + gs;
    forall j | 0 <= j < |all| ensures Loose(l, all[j]) && all[j] < |l.kbits| {
      assert j < |fs| ==> Loose(k, fs[j]);
    }
    forall i, j | 0 <= i < j < |all| ensures all[i] != all[j] {
      assert i < |fs| ==> Loose(k, fs[i]);
    }
  }

  lemma {:induction false} KernelPagesKeeps(m: Memory, n: nat)
    requires Core(m) && KernelPages(m, n).Done?
    ensures Batch(m, KernelPages(m, n).value.0, KernelPages(m, n).value.1)
    decreases n
  {
    if n > 0 {
      var (m1, f) := Palloc(m, true).value;
      var m2 := m1.(data := m1.data[f := ZeroPage()]);
      KernelPageKeeps(m);
      assert Batch(m, m2, [f]);
      KernelPagesKeeps(m2, n - 1);
      var (k, fs) := KernelPages(m2, n - 1).value;
      BatchThen(m, m2, [f], k, fs);
      assert KernelPages(m, n).value == (k, [f] + fs);
    }
  }

  lemma OwnPagesKeeps(m: Memory)
    requires Core(m) && OwnPages(m).Done?
    ensures Batch(m, OwnPages(m).value.0, OwnPages(m).value.1)
  {
    var (m1, a) := KernelPages(m, 1).value;
    KernelPagesKeeps(m, 1);
    var (m2, b) := KernelPages(m1, BITMAP_PAGES).value;
    KernelPagesKeeps(m1, BITMAP_PAGES);
    BatchThen(m, m1, a, m2, b);
    var (m3, d) := KernelPages(m2, 1).value;
    KernelPagesKeeps(m2, 1);
    BatchThen(m, m2, a + b, m3, d);
  }

  // ---------------------------------------------------------------------------------------
  // New processes and new pages.

  lemma NewProcKeeps(m: Memory, c: Pid, vbits: seq<bool>)
    requires Core(m) && c !in m.procs && c !in m.dead && |vbits| == USER_BITS && NewProc(m, c, vbits).Done?
    ensures var n := NewProc(m, c, vbits).value;
            && Core(n) && View(n) == View(m) && n.pte == m.pte && n.tables == m.tables && n.dead == m.dead
            && n.procs == m.procs[c := n.procs[c]] && n.procs[c].vbits == vbits
            && forall f: nat :: PageRefs(n, f) == PageRefs(m, f)
  {
    OwnPagesKeeps(m);
    var (m3, own) := OwnPages(m).value;
    ProcKeeps(m3, c, vbits, own);
    var n := NewProc(m, c, vbits).value;
    assert n == m3.(procs := m3.procs[c := Proc(vbits, own)]);
    assert forall f: nat :: PageRefs(n, f) == PageRefs(m, f);
  }

  /** A page table made on the way does not show. */
  lemma NewTableKeeps(m: Memory, p: Pid, d: nat)
    requires Core(m) && p in m.procs && d < 768 && (p, d) !in m.tables
    ensures !NewTable(m, p, d).AssertFailed?
    ensures NewTable(m, p, d).Done? ==> var n := NewTable(m, p, d).value;
              && Core(n) && View(n) == View(m) && SameUse(m, n.(tables := m.tables))
              && n.tables.Keys == m.tables.Keys + {(p, d)}
              && (forall g: nat :: Loose(m, g) ==> Loose(n, g) && n.data[g] == m.data[g])
              && (forall g: nat :: g < |m.mem| && PageRefs(m, g) != {} ==>
                 n.mem[g] == m.mem[g] && n.data[g] == m.data[g])
              && forall g: nat :: PageRefs(n, g) == PageRefs(m, g)
  {
    hide BitsInv, EntriesInv, ProcsInv, SlotInv, CountInv;
    if NewTable(m, p, d).Done? {
      KernelPageKeeps(m);
      var (m0, t) := Palloc(m, true).value;
      var m1 := m0.(data := m0.data[t := ZeroPage()]);
      TableKeeps(m1, p, d, t);
      var n := NewTable(m, p, d).value;
      assert n == m1.(tables := m1.tables[(p, d) := t]);
      assert forall g: nat :: PageRefs(n, g) == PageRefs(m1, g);
      assert forall g: nat :: PageRefs(m1, g) == PageRefs(m, g);
      forall g: nat | Loose(m, g) ensures Loose(n, g) && n.data[g] == m.data[g] {
        assert Loose(m1, g) && g != t;
        assert forall s :: s != TableSlot(p, d) ==> SlotFrame(n, s) == SlotFrame(m1, s);
      }
    }
  }

  /** Pages that processes see after one more entry. */
  lemma ViewAfterAdd(m: Memory, p: Pid, i: nat, f: nat, w: bool)
    requires f < |m.data|
    ensures View(m.(pte := m.pte[(p, i) := Pte(f, w)])) == View(m)[(p, i) := m.data[f]]
  {
  }

  /** Mapping a loose frame: the process sees one more page, with the frame's bytes. */
  lemma MapLooseKeeps(m: Memory, p: Pid, i: nat, f: nat, w: bool)
    requires Core(m) && p in m.procs && (p, i) !in m.pte && i < USER_BITS && Loose(m, f)
    ensures !PageTableAdd(m, p, i, f, w).AssertFailed?
    ensures PageTableAdd(m, p, i, f, w).Done? ==> var n := PageTableAdd(m, p, i, f, w).value;
              && Core(n) && View(n) == View(m)[(p, i) := m.data[f]]
              && n.pte == m.pte[(p, i) := Pte(f, w)] && n.procs == m.procs && n.dead == m.dead
              && (forall g: nat :: PageRefs(n, g) == PageRefs(m, g) + if g == f then {(p, i)} else {})
  {
    if (p, Pde(i)) !in m.tables {
      NewTableKeeps(m, p, Pde(i));
    }
    if PageTableAdd(m, p, i, f, w).Done? {
      var m1 := if (p, Pde(i)) in m.tables then m else NewTable(m, p, Pde(i)).value;
      PageKeeps(m1, p, i, f, w);
      ViewAfterAdd(m1, p, i, f, w);
      RefsAfterAdd(m1, p, i, f, w);
    }
  }

  lemma SpotAfterNew(m: Memory, n: Memory, p: Pid, i: nat, f: nat)
    requires Spot(m) && PageRefs(m, f) == {}
    requires forall g: nat :: PageRefs(n, g) == PageRefs(m, g) + if g == f then {(p, i)} else {}
    ensures Spot(n)
  {
  }
}
