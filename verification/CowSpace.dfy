/** When the operations of the copy-on-write memory run out of frames: exactly when fewer are free in the pools
    than they need (src/kernel/memory.c, src/userprog/fork.c). */
module CowSpace {
  import opened Bytes
  import opened Bitmaps
  import opened Cow
  import opened CowInvariants
  import opened CowRefines
  import opened CowFork

  /** How many frames of a pool are free. */
  function Free(m: Memory, kernel: bool): nat {
    ClearBits(if kernel then m.kbits else m.ubits)
  }

  /** n kernel frames and u user frames less are free. */
  ghost predicate Took(m: Memory, k: Memory, n: nat, u: nat) {
    Free(k, true) + n == Free(m, true) && Free(k, false) + u == Free(m, false)
  }

  /** palloc finds a frame iff the pool has one: the first free one. */
  lemma PallocSpace(m: Memory, kernel: bool)
    requires Shape(m)
    ensures Palloc(m, kernel).Exhausted? <==> Free(m, kernel) == 0
    ensures Palloc(m, kernel).Done? ==>
              && Took(m, Palloc(m, kernel).value.0, if kernel then 1 else 0, if kernel then 0 else 1)
              && forall g: nat :: FrameOk(m, g) && (kernel <==> g < m.kFrames) && g < Palloc(m, kernel).value.1 ==>
                 Used(m, g)
  {
    hide ClearBits;
    var bits := if kernel then m.kbits else m.ubits;
    FirstClearIff(bits);
    if FirstClear(bits).Some? {
      FreeAfterSet(bits, FirstClear(bits).value);
    }
  }

  /** get_kernel_pages: iff the kernel pool has that many. */
  lemma {:induction false} KernelPagesSpace(m: Memory, n: nat)
    requires Shape(m)
    ensures KernelPages(m, n).Exhausted? <==> Free(m, true) < n
    ensures KernelPages(m, n).Done? ==> Took(m, KernelPages(m, n).value.0, n, 0)
    decreases n
  {
    hide ClearBits;
    if n > 0 {
      PallocSpace(m, true);
      if Palloc(m, true).Done? {
        var (m1, f) := Palloc(m, true).value;
        var m2 := m1.(data := m1.data[f := ZeroPage()]);
        KernelPagesSpace(m2, n - 1);
        if KernelPages(m2, n - 1).Done? {
          assert KernelPages(m, n).value.0 == KernelPages(m2, n - 1).value.0;
        }
      }
    }
  }

  /** A new process needs 25 kernel frames. */
  lemma NewProcSpace(m: Memory, c: Pid, vbits: seq<bool>)
    requires Shape(m)
    ensures NewProc(m, c, vbits).Exhausted? <==> Free(m, true) < 25
    ensures NewProc(m, c, vbits).Done? ==> Took(m, NewProc(m, c, vbits).value, 25, 0)
  {
    hide ClearBits, KernelPages;
    KernelPagesSpace(m, 1);
    if KernelPages(m, 1).Done? {
      var m1 := KernelPages(m, 1).value.0;
      KernelPagesSpace(m1, BITMAP_PAGES);
      if KernelPages(m1, BITMAP_PAGES).Done? {
        KernelPagesSpace(KernelPages(m1, BITMAP_PAGES).value.0, 1);
      }
    }
  }

  /** An entry needs a kernel frame iff its page table is missing. */
  function TableToTake(m: Memory, p: Pid, i: nat): nat {
    if (p, Pde(i)) in m.tables then 0 else 1
  }

  lemma PageTableAddSpace(m: Memory, p: Pid, i: nat, f: nat, w: bool)
    requires Shape(m)
    ensures PageTableAdd(m, p, i, f, w).Exhausted? <==> Free(m, true) < TableToTake(m, p, i)
    ensures PageTableAdd(m, p, i, f, w).Done? ==>
              && Took(m, PageTableAdd(m, p, i, f, w).value, TableToTake(m, p, i), 0)
              && PageTableAdd(m, p, i, f, w).value.tables.Keys == m.tables.Keys + {(p, Pde(i))}
  {
    hide ClearBits;
    PallocSpace(m, true);
  }

  /** A new page needs a user frame, and a kernel frame iff its page table is missing. */
  lemma GetAPageSpace(m: Memory, p: Pid, i: nat)
    requires Shape(m) && p in m.procs && |m.procs[p].vbits| == USER_BITS && 0 < i < USER_BITS
    ensures GetAPage(m, p, i).Exhausted? <==> Free(m, false) < 1 || Free(m, true) < TableToTake(m, p, i)
    ensures GetAPage(m, p, i).Done? ==> Took(m, GetAPage(m, p, i).value, TableToTake(m, p, i), 1)
  {
    hide ClearBits, PageTableAdd, Palloc;
    var s := m.procs[p];
    var m0 := m.(procs := m.procs[p := s.(vbits := s.vbits[i := true])]);
    PallocSpace(m0, false);
    if Palloc(m0, false).Done? {
      var (m1, f) := Palloc(m0, false).value;
      PageTableAddSpace(m1, p, i, f, true);
    }
  }

  // ---------------------------------------------------------------------------------------
  // The write-protection fault.

  lemma SplitSpace(m: Memory, p: Pid, i: nat, f: nat)
    requires Shape(m) && f < |m.mem|
    ensures SplitPage(m, p, i, f).Exhausted? <==> Free(m, true) < 2
  {
    hide ClearBits, Palloc;
    PallocSpace(m, true);
    if Palloc(m, true).Done? {
      var (m1, b) := Palloc(m, true).value;
      PallocSpace(m1.(data := m1.data[b := ZeroPage()]), true);
    }
  }

  /** Two frames of the kernel pool are needed iff the frame has more than one sharer. */
  lemma FaultSpace(m: Memory, p: Pid, i: nat)
    requires Core(m) && (p, i) in m.pte
    ensures m.pte[(p, i)].frame < |m.mem|
    ensures DoWpPage(m, p, i).Exhausted? <==> |PageRefs(m, m.pte[(p, i)].frame)| > 1 && Free(m, true) < 2
  {
    hide ClearBits, BitsInv, ProcsInv, SlotInv, Palloc, SplitPage;
    EntryFacts(m, p, i);
    var f := m.pte[(p, i)].frame;
    SplitSpace(m, p, i, f);
    assert PageRefs(m, f) != {};
  }

  lemma WriteSpace(m: Memory, p: Pid, i: nat, off: nat, b: Byte)
    requires Core(m) && (p, i) in m.pte && off < PG_SIZE
    ensures m.pte[(p, i)].frame < |m.mem|
    ensures UserWrite(m, p, i, off, b).Exhausted? <==>
              !m.pte[(p, i)].writable && |PageRefs(m, m.pte[(p, i)].frame)| > 1 && Free(m, true) < 2
  {
    hide ClearBits, BitsInv, ProcsInv, SlotInv, DoWpPage;
    FaultSpace(m, p, i);
  }

  // ---------------------------------------------------------------------------------------
  // Fork.

  /** The page tables that the pages with bits set from i on are in. */
  ghost function TablesOf(vbits: seq<bool>, i: nat): (r: set<nat>)
    requires i <= |vbits|
    decreases |vbits| - i
  {
    if i == |vbits| then {} else TablesOf(vbits, i + 1) + if vbits[i] then {Pde(i)} else {}
  }

  ghost function ChildTables(m: Memory, c: Pid): set<nat> {
    set k | k in m.tables && k.0 == c :: k.1
  }

  lemma SharePageSpace(m: Memory, c: Pid, p: Pid, i: nat)
    requires Core(m) && Spot(m) && p != c && c in m.procs && (p, i) in m.pte && (c, i) !in m.pte
    ensures SharePage(m, c, p, i).Exhausted? <==> Free(m, true) < TableToTake(m, c, i)
    ensures SharePage(m, c, p, i).Done? ==>
              && Took(m, SharePage(m, c, p, i).value, TableToTake(m, c, i), 0)
              && SharePage(m, c, p, i).value.tables.Keys == m.tables.Keys + {(c, Pde(i))}
  {
    hide ClearBits, BitsInv, EntriesInv, ProcsInv, SlotInv, CountInv, Spot, PageTableAdd, View, PageRefs;
    SharePageKeeps(m, c, p, i);
    EntryFacts(m, p, i);
    var f := m.pte[(p, i)].frame;
    MakeReadOnly(m, p, i);
    PageTableAddSpace(ModifyPte(m, p, i, f, false).value, c, i, f, false);
  }

  /** The child needs a kernel frame for each page table that it does not have yet. */
  lemma {:induction false} SharePagesSpace(m: Memory, c: Pid, p: Pid, vbits: seq<bool>, i: nat)
    requires Core(m) && Spot(m) && p != c && c in m.procs && i <= |vbits|
    requires ParentBits(m, p, vbits) && CopiedBelow(m, c, vbits, i)
    ensures SharePages(m, c, p, vbits, i).Exhausted? <==> Free(m, true) < ToTake(m, c, vbits, i)
    ensures SharePages(m, c, p, vbits, i).Done? ==>
              Took(m, SharePages(m, c, p, vbits, i).value, ToTake(m, c, vbits, i), 0)
    decreases |vbits| - i
  {
    hide Core, Spot, SharePage, ToTake, TableToTake, Free;
    ShapeOf(m);
    SkipsClear(m, c, vbits, i);
    if i < |vbits| {
      if !vbits[i] {
        SharePagesSpace(m, c, p, vbits, i + 1);
      } else {
        SharePageKeeps(m, c, p, i);
        SharePageSpace(m, c, p, i);
        if SharePage(m, c, p, i).Done? {
          var m1 := SharePage(m, c, p, i).value;
          OneTable(m, m1, c, vbits, i);
          SharePagesSpace(m1, c, p, vbits, i + 1);
        } else {
          TakesTable(m, c, vbits, i);
        }
      }
    }
  }

  /** How many tables are to be taken for the pages from i on. */
  ghost function ToTake(m: Memory, c: Pid, vbits: seq<bool>, i: nat): nat
    requires i <= |vbits|
  {
    |TablesOf(vbits, i) - ChildTables(m, c)|
  }

  lemma SkipsClear(m: Memory, c: Pid, vbits: seq<bool>, i: nat)
    requires i <= |vbits|
    ensures i == |vbits| ==> ToTake(m, c, vbits, i) == 0
    ensures i < |vbits| && !vbits[i] ==> ToTake(m, c, vbits, i) == ToTake(m, c, vbits, i + 1)
  {
    if i < |vbits| && !vbits[i] {
      assert TablesOf(vbits, i) == TablesOf(vbits, i + 1);
    }
  }

  lemma TakesTable(m: Memory, c: Pid, vbits: seq<bool>, i: nat)
    requires i < |vbits| && vbits[i]
    ensures ToTake(m, c, vbits, i) >= TableToTake(m, c, i)
  {
    hide Pde;
    HasTable(m, c, Pde(i));
    if TableToTake(m, c, i) == 1 {
      assert Pde(i) in TablesOf(vbits, i) - ChildTables(m, c);
    }
  }

  lemma OneTable(m: Memory, n: Memory, c: Pid, vbits: seq<bool>, i: nat)
    requires i < |vbits| && vbits[i] && n.tables.Keys == m.tables.Keys + {(c, Pde(i))}
    ensures ToTake(m, c, vbits, i) == ToTake(n, c, vbits, i + 1) + TableToTake(m, c, i)
  {
    hide Pde;
    var d := Pde(i);
    HasTable(m, c, d);
    TablesGrow(m, n, c, d);
    var rest := TablesOf(vbits, i + 1) - ChildTables(n, c);
    assert TablesOf(vbits, i) - ChildTables(m, c) == if d in ChildTables(m, c) then rest else rest + {d};
  }

  lemma TablesGrow(m: Memory, n: Memory, c: Pid, d: nat)
    requires n.tables.Keys == m.tables.Keys + {(c, d)}
    ensures ChildTables(n, c) == ChildTables(m, c) + {d}
  {
    forall e ensures e in ChildTables(n, c) <==> e in ChildTables(m, c) + {d} {
      assert (c, e) in n.tables <==> (c, e) in m.tables || e == d;
      HasTable(n, c, e);
      HasTable(m, c, e);
    }
  }

  lemma HasTable(m: Memory, c: Pid, d: nat)
    ensures d in ChildTables(m, c) <==> (c, d) in m.tables
  {
    if d in ChildTables(m, c) {
      var k :| k in m.tables && k.0 == c && k.1 == d;
      assert k == (c, d);
    }
    if (c, d) in m.tables {
      assert (c, d).1 == d;
    }
  }

  /** The page tables that the pages of a process are in. */
  ghost function TablesIn(m: Memory, p: Pid): set<nat> {
    set k | k in m.pte && k.0 == p :: Pde(k.1)
  }

  lemma {:induction false} TablesOfBits(m: Memory, p: Pid, vbits: seq<bool>, i: nat, d: nat)
    requires i <= |vbits|
    ensures d in TablesOf(vbits, i) <==> exists j :: i <= j < |vbits| && vbits[j] && Pde(j) == d
    decreases |vbits| - i
  {
    hide Pde;
    if i < |vbits| {
      TablesOfBits(m, p, vbits, i + 1, d);
    }
  }

  lemma TablesAgree(m: Memory, p: Pid, vbits: seq<bool>)
    requires ParentBits(m, p, vbits)
    ensures TablesOf(vbits, 0) == TablesIn(m, p)
  {
    hide Pde, TablesOf;
    forall d ensures d in TablesOf(vbits, 0) <==> d in TablesIn(m, p) {
      TablesOfBits(m, p, vbits, 0, d);
      if d in TablesIn(m, p) {
        var k :| k in m.pte && k.0 == p && Pde(k.1) == d;
        assert k == (p, k.1);
      }
      if j :| 0 <= j < |vbits| && vbits[j] && Pde(j) == d {
        assert (p, j) in m.pte && (p, j).0 == p && Pde((p, j).1) == d;
      }
    }
  }

  /** fork needs 25 kernel frames, and one for each page table of the child. */
  lemma ForkSpace(m: Memory, p: Pid, c: Pid)
    requires Inv(m) && p in m.procs && c !in m.procs && c !in m.dead
    ensures Fork(m, p, c).Exhausted? <==> Free(m, true) < 25 + |TablesIn(m, p)|
    ensures Fork(m, p, c).Done? ==> Took(m, Fork(m, p, c).value, 25 + |TablesIn(m, p)|, 0)
  {
    hide Core, Spot, Free, NewProc, SharePages, ToTake, TablesIn, BitmapOf;
    var vbits := m.procs[p].vbits;
    ShapeOf(m);
    NewProcSpace(m, c, vbits);
    if NewProc(m, c, vbits).Done? {
      NewProcKeeps(m, c, vbits);
      NewChild(m, p, c);
      var m1 := NewProc(m, c, vbits).value;
      SharePagesSpace(m1, c, p, vbits, 0);
      NewTables(m, m1, p, c, vbits);
    }
  }

  lemma ShapeOf(m: Memory)
    requires Core(m)
    ensures Shape(m) && forall p :: p in m.procs ==> |m.procs[p].vbits| == USER_BITS
  {
    hide BitsInv, EntriesInv, SlotInv, CountInv;
  }

  lemma NewTables(m: Memory, m1: Memory, p: Pid, c: Pid, vbits: seq<bool>)
    requires Core(m) && c !in m.procs && m1.tables == m.tables && m1.pte == m.pte && ParentBits(m1, p, vbits)
    ensures ToTake(m1, c, vbits, 0) == |TablesIn(m, p)|
  {
    hide BitsInv, SlotInv, CountInv, TablesOf;
    TablesAgree(m1, p, vbits);
    NoTables(m, c);
    assert TablesIn(m1, p) == TablesIn(m, p) && ChildTables(m1, c) == {};
    assert TablesOf(vbits, 0) - {} == TablesOf(vbits, 0);
  }

  lemma NoTables(m: Memory, c: Pid)
    requires EntriesInv(m) && c !in m.procs
    ensures ChildTables(m, c) == {}
  {
  }
}
