/** Stores, new pages, exit, and whole runs of the copy-on-write memory. */
module CowRun {
  import opened Bytes
  import opened Results
  import opened Cow
  import opened CowInvariants
  import opened CowBound
  import opened CowRefines
  import opened CowFork
  import opened CowExit
  import opened CowSpace

  // ---------------------------------------------------------------------------------------
  // The write-protection fault.

  /** The copy of a shared page: nobody sees a difference, and the faulting process gets a
      writable frame of its own. */
  lemma SplitRefines(m: Memory, p: Pid, i: nat)
    requires Core(m) && Spot(m) && (p, i) in m.pte && m.mem[m.pte[(p, i)].frame] > 1
    ensures var r := SplitPage(m, p, i, m.pte[(p, i)].frame);
            && !r.AssertFailed?
            && (r.Done? ==> var n := r.value;
                 && Core(n) && Spot(n) && View(n) == View(m)
                 && n == m.(pte := n.pte, mem := n.mem, kbits := n.kbits, ubits := n.ubits, data := n.data)
                 && n.pte.Keys == m.pte.Keys && n.pte[(p, i)].writable && OneSplit(m, n, p, i))
  {
    hide BitsInv, EntriesInv, ProcsInv, SlotInv, CountInv, Spot, View, OneSplit;
    EntryFacts(m, p, i);
    var f := m.pte[(p, i)].frame;
    var r := SplitPage(m, p, i, f);
    if Palloc(m, true).Done? {
      KernelPageKeeps(m);
      var (n1, b) := Palloc(m, true).value;
      var m1 := n1.(data := n1.data[b := ZeroPage()]);
      SameUseRefs(m, m1);
      SpotSame(m, m1);
      if Palloc(m1, true).Done? {
        PallocKeeps(m1, true);
        PallocView(m1, true);
        PallocLoose(m1, true, b);
        var (m2, g) := Palloc(m1, true).value;
        SameUseRefs(m1, m2);
        SpotSame(m1, m2);
        FreshCopy(m2, p, i, b, g);
        assert SplitPage(m, p, i, f) == FreePhyPage(Moved(m2, p, i, b, g), b);
        TwoTaken(m, b, g);
        BufferBack(m, m2, p, i, b, g);
      }
    }
  }

  /** The entry points at a frame g of the kernel pool that was free; the old frame has one sharer less, and all
      other frames are taken or free as before, the buffer too. */
  ghost predicate OneSplit(m: Memory, n: Memory, p: Pid, i: nat)
    requires (p, i) in m.pte
  {
    var f := m.pte[(p, i)].frame;
    exists g: nat :: g < |m.kbits| && !m.kbits[g] && n.kbits == m.kbits[g := true] && n.ubits == m.ubits
      && g < |m.mem| && f < |m.mem| && m.mem[f] > 1 && n.mem == m.mem[f := m.mem[f] - 1][g := 1]
      && n.pte == m.pte[(p, i) := Pte(g, true)]
  }

  /** The two frames that do_wp_page takes are different free frames of the kernel pool. */
  lemma TwoTaken(m: Memory, b: nat, g: nat)
    requires Core(m) && Palloc(m, true).Done? && b == Palloc(m, true).value.1
    requires var m1 := Palloc(m, true).value.0.(data := Palloc(m, true).value.0.data[b := ZeroPage()]);
             Shape(m1) && Palloc(m1, true).Done? && g == Palloc(m1, true).value.1
    ensures b < |m.kbits| && g < |m.kbits| && b != g && !m.kbits[b] && !m.kbits[g] && m.mem[b] == 0 && m.mem[g] == 0
    ensures var m1 := Palloc(m, true).value.0.(data := Palloc(m, true).value.0.data[b := ZeroPage()]);
            var m2 := Palloc(m1, true).value.0;
            && m2.kbits == m.kbits[b := true][g := true] && m2.ubits == m.ubits && m2.mem == m.mem[b := 1][g := 1]
            && m2.pte == m.pte
  {
    hide EntriesInv, ProcsInv, SlotInv, CountInv;
  }

  lemma BufferBack(m: Memory, m2: Memory, p: Pid, i: nat, b: nat, g: nat)
    requires Core(m) && Spot(m) && (p, i) in m.pte && m.pte[(p, i)].frame < |m.mem| && m.mem[m.pte[(p, i)].frame] > 1
    requires b < |m.kbits| && g < |m.kbits| && b != g && !m.kbits[b] && !m.kbits[g] && m.mem[b] == 0 && m.mem[g] == 0
    requires m2.kbits == m.kbits[b := true][g := true] && m2.ubits == m.ubits && m2.mem == m.mem[b := 1][g := 1]
    requires m2.pte == m.pte && |m2.data| == |m2.mem| && FrameOk(m2, b)
    ensures FreePhyPage(Moved(m2, p, i, b, g), b).Done? ==>
            OneSplit(m, FreePhyPage(Moved(m2, p, i, b, g), b).value, p, i)
  {
    hide EntriesInv, ProcsInv, SlotInv, BitsInv, CountInv, Spot, PageRefs;
    var f := m.pte[(p, i)].frame;
    EntryFacts(m, p, i);
    SharersFitInByte(m, f);
    var e := FreePhyPage(Moved(m2, p, i, b, g), b).value;
    assert e.kbits == m.kbits[g := true];
    assert e.mem == m.mem[f := m.mem[f] - 1][g := 1];
  }

  /** After both frames are taken: bytes copied over b to g, the entry moved, one sharer less. */
  function Moved(m: Memory, p: Pid, i: nat, b: nat, g: nat): Memory
    requires (p, i) in m.pte && m.pte[(p, i)].frame < |m.data| == |m.mem| && b < |m.data| && g < |m.data|
  {
    var f := m.pte[(p, i)].frame;
    m.(data := m.data[b := m.data[f]][g := m.data[f]], pte := m.pte[(p, i) := Pte(g, true)],
       mem := m.mem[f := (m.mem[f] + 255) % 256])
  }

  lemma FreshCopy(m: Memory, p: Pid, i: nat, b: nat, g: nat)
    requires Core(m) && Spot(m) && (p, i) in m.pte && m.pte[(p, i)].frame < |m.data| && m.mem[m.pte[(p, i)].frame] > 1
    requires Loose(m, b) && Loose(m, g) && b != g
    ensures var r := FreePhyPage(Moved(m, p, i, b, g), b);
            r.Done? && Core(r.value) && Spot(r.value) && View(r.value) == View(m)
  {
    hide BitsInv, EntriesInv, ProcsInv, SlotInv, CountInv, Spot, View;
    EntryFacts(m, p, i);
    var f := m.pte[(p, i)].frame;
    SharersFitInByte(m, f);
    var page := m.data[f];
    var d := m.(data := m.data[b := page][g := page]);
    DataKeeps(m, m.data[b := page][g := page]);
    DataRefs(m, m.data[b := page][g := page]);
    SpotSame(m, d);
    UnusedData(m, b, page);
    DataKeeps(m, m.data[b := page]);
    DataRefs(m, m.data[b := page]);
    UnusedData(m.(data := m.data[b := page]), g, page);
    SplitKeeps(d, p, i, f, g);
    var n := Moved(m, p, i, b, g);
    assert n == d.(pte := d.pte[(p, i) := Pte(g, true)], mem := d.mem[f := d.mem[f] - 1]);
    SplitCounts(d, p, i, f, g, b);
    SpotMoved(d, n, p, i, f, g);
    ViewAfterAdd(d, p, i, g, true);
    ViewSame(d.(pte := d.pte[(p, i) := Pte(g, true)]), n);
    FreeKeeps(n, b);
    var e := FreePhyPage(n, b).value;
    SameUseRefs(n, e);
    SpotSame(n, e);
    ViewSame(n, e);
  }

  lemma SplitCounts(m: Memory, p: Pid, i: nat, f: nat, g: nat, b: nat)
    requires CountInv(m) && (p, i) in m.pte && m.pte[(p, i)].frame == f && f < |m.mem| && m.mem[f] > 1
    requires Loose(m, g) && Loose(m, b) && b != g
    ensures var n := m.(pte := m.pte[(p, i) := Pte(g, true)], mem := m.mem[f := m.mem[f] - 1]);
            && Loose(n, b)
            && forall h: nat :: PageRefs(n, h) == if h == f then PageRefs(m, f) - {(p, i)}
                                                  else if h == g then {(p, i)} else PageRefs(m, h)
  {
    SplitCount(m, p, i, f, g);
  }

  lemma SpotMoved(m: Memory, n: Memory, p: Pid, i: nat, f: nat, g: nat)
    requires Spot(m)
    requires forall h: nat :: PageRefs(n, h) == if h == f then PageRefs(m, f) - {(p, i)}
                                                else if h == g then {(p, i)} else PageRefs(m, h)
    ensures Spot(n)
  {
  }

  /** do_wp_page shows no process a difference, and the faulting entry is writable afterwards. */
  lemma FaultRefines(m: Memory, p: Pid, i: nat)
    requires Inv(m) && (p, i) in m.pte
    ensures m.pte[(p, i)].frame < |m.mem|
    ensures !DoWpPage(m, p, i).AssertFailed?
    ensures DoWpPage(m, p, i).Exhausted? <==> |PageRefs(m, m.pte[(p, i)].frame)| > 1 && Free(m, true) < 2
    ensures DoWpPage(m, p, i).Done? ==> var n := DoWpPage(m, p, i).value;
              && Inv(n) && Abs(n) == Abs(m) && n.dead == m.dead && n.pte.Keys == m.pte.Keys && n.pte[(p, i)].writable
              && if |PageRefs(m, m.pte[(p, i)].frame)| > 1 then OneSplit(m, n, p, i)
                 else n == m.(pte := m.pte[(p, i) := Pte(m.pte[(p, i)].frame, true)])
  {
    hide BitsInv, EntriesInv, ProcsInv, SlotInv, CountInv, Spot, View, PageRefs, Free, OneSplit;
    FaultSpace(m, p, i);
    EntryFacts(m, p, i);
    var f := m.pte[(p, i)].frame;
    if m.mem[f] == 1 {
      AccessKeeps(m, p, i, true);
      var n := DoWpPage(m, p, i).value;
      SpotSame(m, n);
      ViewAfterAdd(m, p, i, f, true);
    } else {
      assert m.mem[f] > 1;
      SplitRefines(m, p, i);
    }
    if DoWpPage(m, p, i).Done? {
      BitmapsSame(m, DoWpPage(m, p, i).value);
    }
  }

  lemma BitmapsSame(m: Memory, n: Memory)
    requires Inv(m) && n.procs == m.procs && n.pte.Keys == m.pte.Keys
    ensures forall p :: p in n.procs ==> |n.procs[p].vbits| == USER_BITS && BitmapOf(n, p)
  {
    forall p | p in n.procs ensures |n.procs[p].vbits| == USER_BITS && BitmapOf(n, p) {
      assert BitmapOf(m, p);
    }
  }

  /** A user-mode store changes the storing process's page and nobody else's. */
  lemma WriteRefines(m: Memory, p: Pid, i: nat, off: nat, b: Byte)
    requires Inv(m) && (p, i) in m.pte && off < PG_SIZE
    ensures m.pte[(p, i)].frame < |m.mem| && (p, i) in View(m)
    ensures !UserWrite(m, p, i, off, b).AssertFailed?
    ensures UserWrite(m, p, i, off, b).Exhausted? <==>
              !m.pte[(p, i)].writable && |PageRefs(m, m.pte[(p, i)].frame)| > 1 && Free(m, true) < 2
    ensures UserWrite(m, p, i, off, b).Done? ==> var n := UserWrite(m, p, i, off, b).value;
              && Inv(n) && n.procs.Keys == m.procs.Keys && n.dead == m.dead
              && View(n) == View(m)[(p, i) := View(m)[(p, i)][off := b]]
  {
    hide BitsInv, EntriesInv, ProcsInv, SlotInv, CountInv, Spot, View, PageRefs, Free, OneSplit, DoWpPage;
    WriteSpace(m, p, i, off, b);
    EntryFacts(m, p, i);
    var m1 := m;
    if !m.pte[(p, i)].writable {
      FaultRefines(m, p, i);
      if DoWpPage(m, p, i).Done? {
        m1 := DoWpPage(m, p, i).value;
      }
    }
    if UserWrite(m, p, i, off, b).Done? || m.pte[(p, i)].writable || DoWpPage(m, p, i).Done? {
      EntryFacts(m1, p, i);
      SoleEntry(m1, p, i);
      var f := m1.pte[(p, i)].frame;
      WriteAlone(m1, p, i, m1.data[f][off := b]);
      BitmapsSame(m1, m1.(data := m1.data[f := m1.data[f][off := b]]));
    }
  }

  lemma SoleEntry(m: Memory, p: Pid, i: nat)
    requires Core(m) && (p, i) in m.pte && m.pte[(p, i)].writable
    ensures PageRefs(m, m.pte[(p, i)].frame) == {(p, i)}
  {
    EntryFacts(m, p, i);
    var f := m.pte[(p, i)].frame;
    forall k | k in PageRefs(m, f) ensures k == (p, i) {
      if k != (p, i) {
        TwoRefs(m, f, k, (p, i));
      }
    }
  }

  // ---------------------------------------------------------------------------------------
  // New processes and new pages.

  lemma ExecuteRefines(m: Memory, c: Pid)
    requires Inv(m) && c !in m.procs && c !in m.dead
    ensures !Execute(m, c).AssertFailed? && (Execute(m, c).Exhausted? <==> Free(m, true) < 25)
    ensures Execute(m, c).Done? ==> var n := Execute(m, c).value;
              Inv(n) && View(n) == View(m) && n.procs.Keys == m.procs.Keys + {c} && n.dead == m.dead
  {
    hide BitsInv, ProcsInv, SlotInv, CountInv, Spot, View, Free;
    NewProcSpace(m, c, NoBits());
    if Execute(m, c).Done? {
      NewProcKeeps(m, c, NoBits());
      var n := Execute(m, c).value;
      SpotSame(m, n);
      EmptyBitmap(m, n, c);
    }
  }

  lemma EmptyBitmap(m: Memory, n: Memory, c: Pid)
    requires Inv(m) && c !in m.procs && n.pte == m.pte && c in n.procs
    requires n.procs == m.procs[c := n.procs[c]] && n.procs[c].vbits == NoBits()
    ensures forall p :: p in n.procs ==> |n.procs[p].vbits| == USER_BITS && BitmapOf(n, p)
  {
    hide BitsInv, EntriesInv, SlotInv, CountInv, Spot, NoBits;
    NoEntries(m, c);
    forall p | p in n.procs ensures |n.procs[p].vbits| == USER_BITS && BitmapOf(n, p) {
      assert p in m.procs ==> BitmapOf(m, p);
    }
  }

  lemma NoEntries(m: Memory, c: Pid)
    requires Core(m) && c !in m.procs
    ensures forall j: nat :: (c, j) !in m.pte
  {
    hide BitsInv, ProcsInv, SlotInv, CountInv;
    forall j: nat ensures (c, j) !in m.pte {
      assert (c, j) in m.pte ==> EntryOk(m, (c, j));
    }
  }

  /** A writable entry for a frame of the user pool that was free. */
  ghost predicate NewPage(m: Memory, e: Pte) {
    e.writable && FrameOk(m, e.frame) && m.kFrames <= e.frame < |m.data| && !Used(m, e.frame)
  }

  /** get_a_page trips an ASSERT exactly for the first page of the bitmap or a page that is
      already mapped. Otherwise the process sees one more page; what was in the frame shows. */
  lemma GetAPageRefines(m: Memory, p: Pid, i: nat)
    requires Inv(m) && p in m.procs && i < USER_BITS
    ensures |m.procs[p].vbits| == USER_BITS
    ensures i == 0 ==> GetAPage(m, p, i).AssertFailed?
    ensures i > 0 && GetAPage(m, p, i).AssertFailed? ==> (p, i) in m.pte
    ensures i > 0 ==> (GetAPage(m, p, i).Exhausted? <==> Free(m, false) < 1 || Free(m, true) < TableToTake(m, p, i))
    ensures GetAPage(m, p, i).Done? ==> (p, i) !in m.pte && var n := GetAPage(m, p, i).value;
              && Inv(n) && n.procs.Keys == m.procs.Keys && n.dead == m.dead
              && (p, i) in n.pte && NewPage(m, n.pte[(p, i)])
              && View(n) == View(m)[(p, i) := m.data[n.pte[(p, i)].frame]]
  {
    hide BitsInv, EntriesInv, SlotInv, CountInv, Spot, BitmapOf, View, Free, PageRefs, TableToTake;
    if i > 0 {
      GetAPageSpace(m, p, i);
      var s := m.procs[p];
      var m0 := m.(procs := m.procs[p := s.(vbits := s.vbits[i := true])]);
      MarkKeeps(m, p, i);
      if Palloc(m0, false).Done? {
        PallocKeeps(m0, false);
        PallocView(m0, false);
        var (m1, f) := Palloc(m0, false).value;
        SameUseRefs(m0, m1);
        SpotSame(m0, m1);
        if (p, i) !in m.pte {
          MapLooseKeeps(m1, p, i, f, true);
          assert NewPage(m, Pte(f, true)) && m1.data == m.data;
          if PageTableAdd(m1, p, i, f, true).Done? {
            var n := PageTableAdd(m1, p, i, f, true).value;
            SpotAfterNew(m1, n, p, i, f);
            MarkedBitmap(m, n, p, i);
          }
        } else {
          EntryOkOf(m, (p, i));
        }
      }
    }
  }

  lemma MarkedBitmap(m: Memory, n: Memory, p: Pid, i: nat)
    requires Inv(m) && p in m.procs && i < |m.procs[p].vbits| && n.pte.Keys == m.pte.Keys + {(p, i)}
    requires n.procs == m.procs[p := m.procs[p].(vbits := m.procs[p].vbits[i := true])]
    ensures forall q :: q in n.procs ==> |n.procs[q].vbits| == USER_BITS && BitmapOf(n, q)
  {
    hide BitsInv, EntriesInv, SlotInv, CountInv, Spot;
    forall q | q in n.procs ensures |n.procs[q].vbits| == USER_BITS && BitmapOf(n, q) {
      assert BitmapOf(m, q);
    }
  }

  /** Setting a bit of a process's address bitmap. */
  lemma MarkKeeps(m: Memory, p: Pid, i: nat)
    requires Core(m) && Spot(m) && p in m.procs && i < |m.procs[p].vbits|
    ensures var s := m.procs[p]; var n := m.(procs := m.procs[p := s.(vbits := s.vbits[i := true])]);
            Core(n) && Spot(n) && View(n) == View(m) && forall f: nat :: PageRefs(n, f) == PageRefs(m, f)
  {
    hide BitsInv, Spot;
    var s := m.procs[p];
    var n := m.(procs := m.procs[p := s.(vbits := s.vbits[i := true])]);
    assert forall f: nat :: PageRefs(n, f) == PageRefs(m, f);
    assert forall t :: SlotFrame(n, t) == SlotFrame(m, t);
    SlotsKept(m, n);
    SpotSame(m, n);
    forall k | k in n.pte ensures EntryOk(n, k) {
      assert EntryOk(m, k);
    }
    MarkBits(m, n);
  }

  lemma MarkBits(m: Memory, n: Memory)
    requires BitsInv(m) && n == m.(procs := n.procs)
    ensures BitsInv(n)
  {
    forall g | 0 <= g < |n.mem|
      ensures if FrameOk(n, g) then Used(n, g) <==> n.mem[g] > 0 else n.mem[g] == 0
    {
      assert if FrameOk(m, g) then Used(m, g) <==> m.mem[g] > 0 else m.mem[g] == 0;
    }
  }

  // ---------------------------------------------------------------------------------------
  // Whole runs.

  datatype Step =
    | ExecuteStep(c: Pid)
    | MapStep(p: Pid, i: nat)
    | WriteStep(p: Pid, i: nat, off: nat, b: Byte)
    | ForkStep(p: Pid, c: Pid)
    | ExitStep(p: Pid)
    | ReapStep(p: Pid)

  /** What a step needs: live processes act, new ones get unused numbers, get_a_page is asked for
      an unmapped page other than the first, and a store hits a mapped page. */
  ghost predicate Enabled(m: Memory, s: Step) {
    match s
    case ExecuteStep(c) => c !in m.procs && c !in m.dead
    case MapStep(p, i) => p in m.procs && 0 < i < USER_BITS && (p, i) !in m.pte
    case WriteStep(p, i, off, b) => (p, i) in m.pte && off < PG_SIZE
    case ForkStep(p, c) => p in m.procs && c !in m.procs && c !in m.dead
    case ExitStep(p) => p in m.procs
    case ReapStep(p) => p in m.dead
  }

  ghost function Do(m: Memory, s: Step): Outcome<Memory>
    requires Inv(m) && Enabled(m, s)
  {
    match s
    case ExecuteStep(c) => Execute(m, c)
    case MapStep(p, i) => GetAPage(m, p, i)
    case WriteStep(p, i, off, b) =>
      WriteRefines(m, p, i, off, b);
      UserWrite(m, p, i, off, b)
    case ForkStep(p, c) => Fork(m, p, c)
    case ExitStep(p) =>
      ExitShape(m, p);
      Exit(m, p)
    case ReapStep(p) =>
      ReapRefines(m, p);
      Reap(m, p)
  }

  /** The step on private pages. fill is what a newly mapped page shows: the kernel does not
      clear it. */
  ghost function EagerDo(e: Eager, s: Step, fill: Page): Eager {
    match s
    case ExecuteStep(c) => e.(procs := e.procs + {c})
    case MapStep(p, i) => e.(pages := e.pages[(p, i) := fill])
    case WriteStep(p, i, off, b) =>
      if (p, i) in e.pages && off < PG_SIZE then e.(pages := e.pages[(p, i) := e.pages[(p, i)][off := b]]) else e
    case ForkStep(p, c) =>
      if p != c then Eager(e.procs + {c}, CopyAll(e.pages, p, c)) else e
    case ExitStep(p) => Eager(e.procs - {p}, map k | k in e.pages && k.0 != p :: e.pages[k])
    case ReapStep(p) => e
  }

  /** What the page mapped by step s shows right after it. */
  ghost function Fill(m: Memory, s: Step): Page
    requires Inv(m) && Enabled(m, s) && Do(m, s).Done?
  {
    if s.MapStep? && (s.p, s.i) in View(Do(m, s).value) then View(Do(m, s).value)[(s.p, s.i)] else ZeroPage()
  }

  /** Fewer frames are free than the step needs: 25 for a new process, one for a page and one for a page table
      that is missing, two for a store to a shared page, 25 and the page tables for fork. */
  ghost predicate Lacks(m: Memory, s: Step)
    requires Inv(m) && Enabled(m, s)
  {
    match s
    case ExecuteStep(c) => Free(m, true) < 25
    case MapStep(p, i) => Free(m, false) < 1 || Free(m, true) < TableToTake(m, p, i)
    case WriteStep(p, i, off, b) =>
      !m.pte[(p, i)].writable && |PageRefs(m, m.pte[(p, i)].frame)| > 1 && Free(m, true) < 2
    case ForkStep(p, c) => Free(m, true) < 25 + |TablesIn(m, p)|
    case ExitStep(p) => false
    case ReapStep(p) => false
  }

  /** Every step keeps the invariant and does to the pages what the step on private pages does;
      it stops exactly for lack of frames, and trips no ASSERT. */
  lemma StepRefines(m: Memory, s: Step)
    requires Inv(m) && Enabled(m, s)
    ensures !Do(m, s).AssertFailed? && (Do(m, s).Exhausted? <==> Lacks(m, s))
    ensures Do(m, s).Done? ==> Inv(Do(m, s).value) && Abs(Do(m, s).value) == EagerDo(Abs(m), s, Fill(m, s))
  {
    hide Core, Inv, View, Execute, GetAPage, UserWrite, Fork, Exit, Reap, CopyAll, BitmapOf, Spot, PageRefs, Free,
         TablesIn, OneSplit;
    match s
    case ExecuteStep(c) =>
      ExecuteRefines(m, c);
    case MapStep(p, i) =>
      GetAPageRefines(m, p, i);
    case WriteStep(p, i, off, b) =>
      WriteRefines(m, p, i, off, b);
    case ForkStep(p, c) =>
      ForkRefines(m, p, c);
      ForkSpace(m, p, c);
    case ExitStep(p) =>
      ExitRefines(m, p);
    case ReapStep(p) =>
      ReapRefines(m, p);
  }

  /** The steps are enabled one after the other, as long as the memory lasts. */
  ghost predicate Legal(m: Memory, steps: seq<Step>)
    requires Inv(m)
    decreases |steps|
  {
    steps == [] ||
    (Enabled(m, steps[0]) &&
     (StepRefines(m, steps[0]);
      Do(m, steps[0]).Done? ==> Legal(Do(m, steps[0]).value, steps[1..])))
  }

  ghost function Run(m: Memory, steps: seq<Step>): Outcome<Memory>
    requires Inv(m) && Legal(m, steps)
    decreases |steps|
  {
    if steps == [] then Done(m)
    else
      StepRefines(m, steps[0]);
      match Do(m, steps[0])
      case Done(n) => Run(n, steps[1..])
      case Exhausted => Exhausted
      case AssertFailed => AssertFailed
  }

  /** The same run on private pages; m only says what newly mapped pages show. */
  ghost function EagerRun(m: Memory, e: Eager, steps: seq<Step>): Eager
    requires Inv(m) && Legal(m, steps)
    decreases |steps|
  {
    if steps == [] || !Do(m, steps[0]).Done? then e
    else
      StepRefines(m, steps[0]);
      EagerRun(Do(m, steps[0]).value, EagerDo(e, steps[0], Fill(m, steps[0])), steps[1..])
  }

  /** The run gets to step k, and there fewer frames are free than that step needs. */
  ghost predicate StopsAt(m: Memory, steps: seq<Step>, k: nat)
    requires Inv(m)
  {
    && k < |steps| && Legal(m, steps[..k]) && Run(m, steps[..k]).Done?
    && Inv(Run(m, steps[..k]).value) && Enabled(Run(m, steps[..k]).value, steps[k])
    && Lacks(Run(m, steps[..k]).value, steps[k])
  }

  /** Over every run, every process sees at every page the bytes it would see had each fork copied
      all pages: copy-on-write refines the eager fork it replaced. The run ends early exactly where a
      step needs more frames than are free. */
  lemma {:induction false} CowRefinesEager(m: Memory, steps: seq<Step>)
    requires Inv(m) && Legal(m, steps)
    ensures !Run(m, steps).AssertFailed?
    ensures Run(m, steps).Exhausted? <==> exists k: nat :: StopsAt(m, steps, k)
    ensures Run(m, steps).Done? ==>
              Inv(Run(m, steps).value) && Abs(Run(m, steps).value) == EagerRun(m, Abs(m), steps)
    decreases |steps|
  {
    hide Inv, Abs, Do, EagerDo, Enabled, Fill, Lacks, StopsAt;
    if steps == [] {
      NoStop(m);
    } else {
      StepRefines(m, steps[0]);
      StopsNow(m, steps);
      if Do(m, steps[0]).Done? {
        var n := Do(m, steps[0]).value;
        CowRefinesEager(n, steps[1..]);
        forall k: nat ensures StopsAt(m, steps, k + 1) <==> StopsAt(n, steps[1..], k) {
          StopsLater(m, steps, k);
        }
        if j: nat :| StopsAt(m, steps, j) {
          if j > 0 {
            StopsLater(m, steps, j - 1);
          }
        }
      } else {
        assert StopsAt(m, steps, 0);
      }
    }
  }

  lemma NoStop(m: Memory)
    requires Inv(m)
    ensures forall k: nat :: !StopsAt(m, [], k)
  {
  }

  lemma StopsNow(m: Memory, steps: seq<Step>)
    requires Inv(m) && Legal(m, steps) && steps != []
    ensures StopsAt(m, steps, 0) <==> Do(m, steps[0]).Exhausted?
  {
    hide Inv, Do, Enabled, Lacks;
    StepRefines(m, steps[0]);
    assert steps[..0] == [];
  }

  lemma StopsLater(m: Memory, steps: seq<Step>, k: nat)
    requires Inv(m) && Legal(m, steps) && steps != [] && Do(m, steps[0]).Done?
    ensures Inv(Do(m, steps[0]).value)
    ensures StopsAt(m, steps, k + 1) <==> StopsAt(Do(m, steps[0]).value, steps[1..], k)
  {
    hide Inv, Do, Enabled, Lacks;
    StepRefines(m, steps[0]);
    if k + 1 < |steps| {
      var pre := steps[..k + 1];
      assert pre[0] == steps[0] && pre[1..] == steps[1..][..k] && steps[k + 1] == steps[1..][k];
    }
  }

  /** A load, in any state: the byte of the private page. */
  lemma LoadRefines(m: Memory, p: Pid, i: nat, off: nat)
    requires Inv(m) && (p, i) in m.pte && off < PG_SIZE
    ensures m.pte[(p, i)].frame < |m.data| && (p, i) in Abs(m).pages
    ensures m.data[m.pte[(p, i)].frame][off] == Abs(m).pages[(p, i)][off]
  {
    EntryFacts(m, p, i);
  }

  /** The state after mem_pool_init: all frames free, no user process. */
  ghost predicate Initial(m: Memory) {
    && Shape(m) && m.pte == map[] && m.tables == map[] && m.procs == map[] && m.dead == map[]
    && (forall f :: 0 <= f < |m.mem| ==> m.mem[f] == 0)
    && (forall f :: 0 <= f < |m.kbits| ==> !m.kbits[f]) && (forall f :: 0 <= f < |m.ubits| ==> !m.ubits[f])
  }

  lemma InitialInv(m: Memory)
    requires Initial(m)
    ensures Inv(m) && Abs(m) == Eager({}, map[])
  {
    assert forall f: nat :: PageRefs(m, f) == {};
    assert forall s :: SlotFrame(m, s) == -1;
    assert forall s :: Held(m, s);
  }

  /** An entry of a good memory: its count is the number of sharers, which fits into a byte. */
  ghost predicate Counted(n: Memory, k: (Pid, nat))
    requires k in n.pte
  {
    var f := n.pte[k].frame;
    && FrameOk(n, f) && n.mem[f] == |PageRefs(n, f)| && 1 <= n.mem[f] <= 156
    && (n.pte[k].writable ==> PageRefs(n, f) == {k})
  }

  lemma EntryCounted(n: Memory, k: (Pid, nat))
    requires Inv(n) && k in n.pte
    ensures Counted(n, k)
  {
    hide BitsInv, EntriesInv, ProcsInv, SlotInv, CountInv, Spot, BitmapOf;
    assert k == (k.0, k.1);
    EntryFacts(n, k.0, k.1);
    SharersFitInByte(n, n.pte[k].frame);
    if n.pte[k].writable {
      SoleEntry(n, k.0, k.1);
    }
  }

  lemma PoolCounted(n: Memory)
    requires BitsInv(n)
    ensures forall f :: 0 <= f < |n.mem| && FrameOk(n, f) ==> (Used(n, f) <==> n.mem[f] > 0)
  {
  }

  /** In every state a run reaches: the count of a user page's frame is the number of entries that
      point at it, a writable entry is the only one, and a pool bit is set iff the count is
      positive. */
  lemma ReachableCounts(m: Memory, steps: seq<Step>)
    requires Initial(m)
    requires Inv(m) && Legal(m, steps) && Run(m, steps).Done?
    ensures var n := Run(m, steps).value;
            && (forall k :: k in n.pte ==> Counted(n, k))
            && (forall f :: 0 <= f < |n.mem| && FrameOk(n, f) ==> (Used(n, f) <==> n.mem[f] > 0))
  {
    hide Legal, Run, EagerRun, BitsInv, EntriesInv, ProcsInv, SlotInv, CountInv, Spot, BitmapOf, Counted, FrameOk, Used;
    CowRefinesEager(m, steps);
    var n := Run(m, steps).value;
    forall k | k in n.pte ensures Counted(n, k) {
      EntryCounted(n, k);
    }
    PoolCounted(n);
  }
}
