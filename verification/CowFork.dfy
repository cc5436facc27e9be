/** Fork: sharing all pages read-only shows the processes what copying them all shows. */
module CowFork {
  import opened Results
  import opened Cow
  import opened CowInvariants
  import opened CowBound
  import opened CowRefines

  /** n is m plus entries of process c alone, for pages that p has too and shows the same. */
  ghost predicate ChildGrows(m: Memory, n: Memory, p: Pid, c: Pid) {
    && n.procs == m.procs && n.dead == m.dead
    && (forall k: (Pid, nat) :: k.0 != c ==> (k in n.pte <==> k in m.pte))
    && (forall k :: k in View(m) ==> k in View(n) && View(n)[k] == View(m)[k])
    && (forall k :: k in View(n) && k !in View(m) ==>
       k.0 == c && (p, k.1) in View(n) && View(n)[k] == View(n)[(p, k.1)])
  }

  // ---------------------------------------------------------------------------------------
  // One page.

  lemma EntryFacts(m: Memory, p: Pid, i: nat)
    requires Core(m) && (p, i) in m.pte
    ensures EntryOk(m, (p, i)) && (p, i) in PageRefs(m, m.pte[(p, i)].frame)
    ensures (p, i) in View(m) && View(m)[(p, i)] == m.data[m.pte[(p, i)].frame]
    ensures m.mem[m.pte[(p, i)].frame] == |PageRefs(m, m.pte[(p, i)].frame)|
  {
    assert EntryOk(m, (p, i)) && (p, i) in PageRefs(m, m.pte[(p, i)].frame);
  }

  /** The entry of the parent turns read-only. */
  lemma MakeReadOnly(m: Memory, p: Pid, i: nat)
    requires Core(m) && (p, i) in m.pte
    ensures var f := m.pte[(p, i)].frame;
            && ModifyPte(m, p, i, f, false).Done?
            && var n := ModifyPte(m, p, i, f, false).value;
            && Core(n) && View(n) == View(m) && n == m.(pte := m.pte[(p, i) := Pte(f, false)])
            && (forall g: nat :: PageRefs(n, g) == PageRefs(m, g))
            && (forall k :: k in PageRefs(n, f) ==> !n.pte[k].writable)
            && PageRefs(n, f) != {} && FrameOk(n, f)
  {
    hide BitsInv, EntriesInv, ProcsInv, SlotInv, CountInv, View, PageRefs;
    AccessKeeps(m, p, i, false);
    EntryFacts(m, p, i);
    var f := m.pte[(p, i)].frame;
    ViewAfterAdd(m, p, i, f, false);
    AllReadOnly(m, p, i);
  }

  /** With one entry read-only all entries of its frame are. */
  lemma AllReadOnly(m: Memory, p: Pid, i: nat)
    requires Core(m) && (p, i) in m.pte
    ensures var f := m.pte[(p, i)].frame; var n := m.(pte := m.pte[(p, i) := Pte(f, false)]);
            forall k :: k in PageRefs(n, f) ==> !n.pte[k].writable
  {
    hide BitsInv, ProcsInv, SlotInv;
    EntryFacts(m, p, i);
    var f := m.pte[(p, i)].frame;
    var n := m.(pte := m.pte[(p, i) := Pte(f, false)]);
    forall k | k in PageRefs(n, f) ensures !n.pte[k].writable {
      if k != (p, i) {
        OtherReadOnly(m, f, k, (p, i));
      }
    }
  }

  lemma OtherReadOnly(m: Memory, f: nat, k: (Pid, nat), l: (Pid, nat))
    requires CountInv(m) && EntriesInv(m) && k != l && k in PageRefs(m, f) && l in PageRefs(m, f)
    ensures !m.pte[k].writable
  {
    assert EntryOk(m, k);
    TwoRefs(m, f, k, l);
  }

  lemma TwoRefs(m: Memory, f: nat, k: (Pid, nat), l: (Pid, nat))
    requires CountInv(m) && f < |m.mem| && k != l && k in PageRefs(m, f) && l in PageRefs(m, f)
    ensures m.mem[f] >= 2
  {
    assert PageRefs(m, f) == {k, l} + (PageRefs(m, f) - {k, l});
  }

  lemma SharePageKeeps(m: Memory, c: Pid, p: Pid, i: nat)
    requires Core(m) && Spot(m) && p != c && c in m.procs && (p, i) in m.pte && (c, i) !in m.pte
    ensures !SharePage(m, c, p, i).AssertFailed?
    ensures SharePage(m, c, p, i).Done? ==> var n := SharePage(m, c, p, i).value;
              && Core(n) && Spot(n) && n.procs == m.procs && n.dead == m.dead
              && n.pte.Keys == m.pte.Keys + {(c, i)}
              && (p, i) in View(m) && View(n) == View(m)[(c, i) := View(m)[(p, i)]]
  {
    hide BitsInv, EntriesInv, ProcsInv, SlotInv, CountInv, Spot, View;
    EntryFacts(m, p, i);
    var f := m.pte[(p, i)].frame;
    MakeReadOnly(m, p, i);
    var m1 := ModifyPte(m, p, i, f, false).value;
    SpotSame(m, m1);
    var m2 := m1;
    if (c, Pde(i)) !in m1.tables {
      NewTableKeeps(m1, c, Pde(i));
      if NewTable(m1, c, Pde(i)).Done? {
        m2 := NewTable(m1, c, Pde(i)).value;
        SpotSame(m1, m2);
      }
    }
    if SharePage(m, c, p, i).Done? {
      AddSharer(m2, c, i, f, p);
    }
  }

  lemma SpotSame(m: Memory, n: Memory)
    requires Spot(m) && forall f: nat :: PageRefs(n, f) == PageRefs(m, f)
    ensures Spot(n)
  {
  }

  lemma AddSharer(m: Memory, c: Pid, i: nat, f: nat, p: Pid)
    requires Core(m) && Spot(m) && c in m.procs && (c, i) !in m.pte && i < USER_BITS && (c, Pde(i)) in m.tables
    requires (p, i) in PageRefs(m, f) && f < |m.mem|
    requires forall k :: k in PageRefs(m, f) ==> !m.pte[k].writable
    ensures var n := m.(pte := m.pte[(c, i) := Pte(f, false)], mem := m.mem[f := (m.mem[f] + 1) % 256]);
            && Core(n) && Spot(n) && View(n) == View(m)[(c, i) := m.data[f]]
  {
    hide BitsInv, EntriesInv, ProcsInv, SlotInv, CountInv, Spot, View;
    EntryFacts(m, p, i);
    SharersFitInByte(m, f);
    ShareKeeps(m, c, i, f);
    ShareSpot(m, c, i, f, p);
    ViewAfterAdd(m, c, i, f, false);
    var n := m.(pte := m.pte[(c, i) := Pte(f, false)], mem := m.mem[f := m.mem[f] + 1]);
    ViewSame(m.(pte := m.pte[(c, i) := Pte(f, false)]), n);
  }

  lemma ViewSame(m: Memory, n: Memory)
    requires n.pte == m.pte && n.data == m.data
    ensures View(n) == View(m)
  {
  }

  lemma ShareSpot(m: Memory, c: Pid, i: nat, f: nat, p: Pid)
    requires Spot(m) && f < |m.mem| && (c, i) !in m.pte && (p, i) in PageRefs(m, f)
    ensures Spot(m.(pte := m.pte[(c, i) := Pte(f, false)], mem := m.mem[f := m.mem[f] + 1]))
  {
    var n := m.(pte := m.pte[(c, i) := Pte(f, false)], mem := m.mem[f := m.mem[f] + 1]);
    forall g: nat, k, l | k in PageRefs(n, g) && l in PageRefs(n, g) ensures k.1 == l.1 {
      ShareRefs(m, c, i, f, m.mem[f := m.mem[f] + 1], g);
    }
  }

  lemma CopyPageKeeps(m: Memory, c: Pid, p: Pid, i: nat)
    requires Core(m) && Spot(m) && p != c && c in m.procs && (p, i) in m.pte && (c, i) !in m.pte
    ensures !CopyPage(m, c, p, i).AssertFailed?
    ensures CopyPage(m, c, p, i).Done? ==> var n := CopyPage(m, c, p, i).value;
              && Core(n) && Spot(n) && n.procs == m.procs && n.dead == m.dead
              && n.pte.Keys == m.pte.Keys + {(c, i)}
              && (p, i) in View(m) && View(n) == View(m)[(c, i) := View(m)[(p, i)]]
  {
    hide BitsInv, EntriesInv, ProcsInv, SlotInv, CountInv, Spot, View;
    EntryFacts(m, p, i);
    var bytes := m.data[m.pte[(p, i)].frame];
    if Palloc(m, false).Done? {
      PallocKeeps(m, false);
      PallocView(m, false);
      var (m1, f) := Palloc(m, false).value;
      SameUseRefs(m, m1);
      SpotSame(m, m1);
      MapLooseKeeps(m1, c, i, f, true);
      if PageTableAdd(m1, c, i, f, true).Done? {
        var m2 := PageTableAdd(m1, c, i, f, true).value;
        SpotAfterNew(m1, m2, c, i, f);
        WriteAlone(m2, c, i, bytes);
      }
    }
  }

  /** Storing into a frame with one entry changes one process's page only. */
  lemma WriteAlone(m: Memory, p: Pid, i: nat, page: Page)
    requires Core(m) && Spot(m) && (p, i) in m.pte && PageRefs(m, m.pte[(p, i)].frame) == {(p, i)}
    ensures var f := m.pte[(p, i)].frame;
            && f < |m.data|
            && var n := m.(data := m.data[f := page]);
            Core(n) && Spot(n) && View(n) == View(m)[(p, i) := page]
  {
    hide BitsInv, EntriesInv, ProcsInv, SlotInv, CountInv, Spot, View;
    EntryFacts(m, p, i);
    var f := m.pte[(p, i)].frame;
    DataKeeps(m, m.data[f := page]);
    DataRefs(m, m.data[f := page]);
    SpotSame(m, m.(data := m.data[f := page]));
    ViewAlone(m, p, i, page);
  }

  lemma DataRefs(m: Memory, data: seq<Page>)
    ensures forall g: nat :: PageRefs(m.(data := data), g) == PageRefs(m, g)
  {
  }

  lemma ViewAlone(m: Memory, p: Pid, i: nat, page: Page)
    requires (p, i) in m.pte && PageRefs(m, m.pte[(p, i)].frame) == {(p, i)} && m.pte[(p, i)].frame < |m.data|
    ensures View(m.(data := m.data[m.pte[(p, i)].frame := page])) == View(m)[(p, i) := page]
  {
    var f := m.pte[(p, i)].frame;
    forall k | k in m.pte && k != (p, i) ensures m.pte[k].frame != f {
      assert k !in PageRefs(m, f);
    }
  }

  // ---------------------------------------------------------------------------------------
  // All pages.

  /** The child has the parent's pages below i and none from i on. */
  ghost predicate CopiedBelow(m: Memory, c: Pid, vbits: seq<bool>, i: nat) {
    forall j: nat :: (c, j) in m.pte <==> j < i && j < |vbits| && vbits[j]
  }

  ghost predicate ParentBits(m: Memory, p: Pid, vbits: seq<bool>) {
    |vbits| == USER_BITS && forall j: nat :: (p, j) in m.pte <==> j < USER_BITS && vbits[j]
  }

  lemma NotYet(m: Memory, c: Pid, i: nat)
    requires (c, i) !in m.pte
    ensures (c, i) !in View(m)
  {
  }

  lemma GrowOne(m: Memory, n: Memory, p: Pid, c: Pid, i: nat)
    requires n.procs == m.procs && n.dead == m.dead && n.pte.Keys == m.pte.Keys + {(c, i)} && p != c
    requires (p, i) in View(m) && (c, i) !in View(m) && View(n) == View(m)[(c, i) := View(m)[(p, i)]]
    ensures ChildGrows(m, n, p, c)
  {
    hide View;
  }

  lemma GrowThen(m: Memory, k: Memory, n: Memory, p: Pid, c: Pid)
    requires ChildGrows(m, k, p, c) && ChildGrows(k, n, p, c)
    ensures ChildGrows(m, n, p, c)
  {
    hide View;
  }

  lemma {:induction false} SharePagesKeep(m: Memory, c: Pid, p: Pid, vbits: seq<bool>, i: nat)
    requires Core(m) && Spot(m) && p != c && c in m.procs && i <= |vbits|
    requires ParentBits(m, p, vbits) && CopiedBelow(m, c, vbits, i)
    ensures !SharePages(m, c, p, vbits, i).AssertFailed?
    ensures SharePages(m, c, p, vbits, i).Done? ==> var n := SharePages(m, c, p, vbits, i).value;
              Core(n) && Spot(n) && CopiedBelow(n, c, vbits, |vbits|) && ChildGrows(m, n, p, c)
    decreases |vbits| - i
  {
    hide BitsInv, EntriesInv, ProcsInv, SlotInv, CountInv, Spot, SharePage, View;
    if i < |vbits| {
      if !vbits[i] {
        SharePagesKeep(m, c, p, vbits, i + 1);
      } else {
        NotYet(m, c, i);
        SharePageKeeps(m, c, p, i);
        if SharePage(m, c, p, i).Done? {
          var m1 := SharePage(m, c, p, i).value;
          GrowOne(m, m1, p, c, i);
          SharePagesKeep(m1, c, p, vbits, i + 1);
          if SharePages(m1, c, p, vbits, i + 1).Done? {
            GrowThen(m, m1, SharePages(m1, c, p, vbits, i + 1).value, p, c);
          }
        }
      }
    }
  }

  lemma {:induction false} CopyPagesKeep(m: Memory, c: Pid, p: Pid, vbits: seq<bool>, i: nat)
    requires Core(m) && Spot(m) && p != c && c in m.procs && i <= |vbits|
    requires ParentBits(m, p, vbits) && CopiedBelow(m, c, vbits, i)
    ensures !CopyPages(m, c, p, vbits, i).AssertFailed?
    ensures CopyPages(m, c, p, vbits, i).Done? ==> var n := CopyPages(m, c, p, vbits, i).value;
              Core(n) && Spot(n) && CopiedBelow(n, c, vbits, |vbits|) && ChildGrows(m, n, p, c)
    decreases |vbits| - i
  {
    hide BitsInv, EntriesInv, ProcsInv, SlotInv, CountInv, Spot, CopyPage, View;
    if i < |vbits| {
      if !vbits[i] {
        CopyPagesKeep(m, c, p, vbits, i + 1);
      } else {
        NotYet(m, c, i);
        CopyPageKeeps(m, c, p, i);
        if CopyPage(m, c, p, i).Done? {
          var m1 := CopyPage(m, c, p, i).value;
          GrowOne(m, m1, p, c, i);
          CopyPagesKeep(m1, c, p, vbits, i + 1);
          if CopyPages(m1, c, p, vbits, i + 1).Done? {
            GrowThen(m, m1, CopyPages(m1, c, p, vbits, i + 1).value, p, c);
          }
        }
      }
    }
  }

  lemma NewChild(m: Memory, p: Pid, c: Pid)
    requires Inv(m) && p in m.procs && c !in m.procs && c !in m.dead && NewProc(m, c, m.procs[p].vbits).Done?
    ensures var n := NewProc(m, c, m.procs[p].vbits).value;
            Core(n) && Spot(n) && ParentBits(n, p, m.procs[p].vbits) && CopiedBelow(n, c, m.procs[p].vbits, 0)
  {
    NewProcKeeps(m, c, m.procs[p].vbits);
    var n := NewProc(m, c, m.procs[p].vbits).value;
    forall j: nat ensures (c, j) !in n.pte {
      assert (c, j) in m.pte ==> EntryOk(m, (c, j));
    }
    assert BitmapOf(m, p);
    forall j: nat | (p, j) in n.pte ensures j < USER_BITS {
      assert EntryOk(m, (p, j));
    }
  }

  lemma ForkResult(m: Memory, m1: Memory, n: Memory, p: Pid, c: Pid)
    requires Inv(m) && p in m.procs && c !in m.procs && c !in m.dead && NewProc(m, c, m.procs[p].vbits) == Done(m1)
    requires Core(n) && Spot(n) && CopiedBelow(n, c, m.procs[p].vbits, USER_BITS) && ChildGrows(m1, n, p, c)
    ensures Inv(n) && n.procs.Keys == m.procs.Keys + {c} && n.dead == m.dead
    ensures View(n) == CopyAll(View(m), p, c)
  {
    hide BitsInv, EntriesInv, SlotInv, CountInv, Spot, View, NewProc, CopyAll;
    NewProcKeeps(m, c, m.procs[p].vbits);
    NewChild(m, p, c);
    ForkBitmaps(m, m1, n, p, c);
    ViewKeys(m);
    ViewKeys(n);
    ForkView(View(m), View(n), p, c);
  }

  lemma ForkView(v: map<(Pid, nat), Page>, w: map<(Pid, nat), Page>, p: Pid, c: Pid)
    requires p != c && forall j: nat :: (c, j) !in v && ((c, j) in w <==> (p, j) in v)
    requires forall k: (Pid, nat) :: k.0 != c ==> (k in w <==> k in v)
    requires forall k :: k in v ==> k in w && w[k] == v[k]
    requires forall k :: k in w && k !in v ==> k.0 == c && (p, k.1) in w && w[k] == w[(p, k.1)]
    ensures w == CopyAll(v, p, c)
  {
    var x := CopyAll(v, p, c);
    forall k: (Pid, nat) ensures k in w <==> k in x {
      assert k == (k.0, k.1);
      if k.0 == c && (p, k.1) in v {
        assert (c, (p, k.1).1) == k;
      }
    }
    forall k: (Pid, nat) | k in w ensures w[k] == x[k] {
      assert k == (k.0, k.1);
      if k !in v {
        assert (p, k.1) in v;
      }
    }
    assert w == x;
  }

  lemma ForkBitmaps(m: Memory, m1: Memory, n: Memory, p: Pid, c: Pid)
    requires Inv(m) && p in m.procs && c !in m.procs && ChildGrows(m1, n, p, c) && m1.pte == m.pte
    requires c in m1.procs && m1.procs == m.procs[c := m1.procs[c]] && m1.procs[c].vbits == m.procs[p].vbits
    requires CopiedBelow(n, c, m.procs[p].vbits, USER_BITS)
    ensures forall q :: q in n.procs ==> |n.procs[q].vbits| == USER_BITS && BitmapOf(n, q)
  {
    hide BitsInv, EntriesInv, SlotInv, CountInv, Spot, View;
    assert BitmapOf(m, p);
    forall q | q in n.procs ensures |n.procs[q].vbits| == USER_BITS && BitmapOf(n, q) {
      if q in m.procs {
        assert BitmapOf(m, q);
      }
    }
  }

  /** Fork keeps the invariant and shows every process exactly what copying all pages shows. It
      stops only when the kernel pool runs out. */
  lemma ForkRefines(m: Memory, p: Pid, c: Pid)
    requires Inv(m) && p in m.procs && c !in m.procs && c !in m.dead
    ensures !Fork(m, p, c).AssertFailed?
    ensures Fork(m, p, c).Done? ==> var n := Fork(m, p, c).value;
              && Inv(n) && View(n) == CopyAll(View(m), p, c)
              && n.procs.Keys == m.procs.Keys + {c} && n.dead == m.dead
  {
    var vbits := m.procs[p].vbits;
    if NewProc(m, c, vbits).Done? {
      NewProcKeeps(m, c, vbits);
      NewChild(m, p, c);
      var m1 := NewProc(m, c, vbits).value;
      SharePagesKeep(m1, c, p, vbits, 0);
      if SharePages(m1, c, p, vbits, 0).Done? {
        ForkResult(m, m1, SharePages(m1, c, p, vbits, 0).value, p, c);
      }
    }
  }

  /** From i on the child has the parent's frames, and both entries are read-only; nobody else's entries change. */
  ghost predicate SharesFrom(m: Memory, n: Memory, p: Pid, c: Pid, vbits: seq<bool>, i: nat)
    requires i <= |vbits|
  {
    && (forall k: (Pid, nat) :: k.0 != p && k.0 != c ==>
       (k in n.pte <==> k in m.pte) && (k in m.pte ==> n.pte[k] == m.pte[k]))
    && (forall j: nat :: (p, j) in m.pte ==>
          && (p, j) in n.pte && n.pte[(p, j)].frame == m.pte[(p, j)].frame
          && n.pte[(p, j)].writable == (m.pte[(p, j)].writable && !(i <= j < |vbits| && vbits[j])))
    && (forall j: nat :: (c, j) in m.pte && j < i ==> (c, j) in n.pte && n.pte[(c, j)] == m.pte[(c, j)])
    && (forall j: nat :: i <= j < |vbits| && vbits[j] ==>
          (p, j) in m.pte && (c, j) in n.pte && n.pte[(c, j)] == Pte(m.pte[(p, j)].frame, false))
  }

  lemma SharePageIs(m: Memory, c: Pid, p: Pid, i: nat)
    requires Shape(m) && p != c && (p, i) in m.pte && SharePage(m, c, p, i).Done?
    ensures SharePage(m, c, p, i).value.pte ==
              m.pte[(p, i) := Pte(m.pte[(p, i)].frame, false)][(c, i) := Pte(m.pte[(p, i)].frame, false)]
  {
  }

  /** fork shares: no frame is copied. */
  lemma {:induction false} SharePagesIs(m: Memory, c: Pid, p: Pid, vbits: seq<bool>, i: nat)
    requires Shape(m) && p != c && i <= |vbits| && SharePages(m, c, p, vbits, i).Done?
    requires forall j: nat :: i <= j < |vbits| && vbits[j] ==> (p, j) in m.pte
    ensures SharesFrom(m, SharePages(m, c, p, vbits, i).value, p, c, vbits, i)
    decreases |vbits| - i
  {
    hide SharePage;
    if i < |vbits| {
      if vbits[i] {
        SharePageIs(m, c, p, i);
        SharePagesIs(SharePage(m, c, p, i).value, c, p, vbits, i + 1);
      } else {
        SharePagesIs(m, c, p, vbits, i + 1);
      }
    }
  }

  /** After fork every page of the parent is in one frame with the child's, read-only for both. */
  lemma ForkShares(m: Memory, p: Pid, c: Pid)
    requires Inv(m) && p in m.procs && c !in m.procs && c !in m.dead && Fork(m, p, c).Done?
    ensures var n := Fork(m, p, c).value;
            && (forall j: nat :: (p, j) in m.pte ==>
                  && (p, j) in n.pte && (c, j) in n.pte
                  && n.pte[(p, j)] == n.pte[(c, j)] == Pte(m.pte[(p, j)].frame, false))
            && forall k: (Pid, nat) :: k in m.pte && k.0 != p ==> k in n.pte && n.pte[k] == m.pte[k]
  {
    hide BitsInv, SlotInv, CountInv, Spot, NewProc, SharePages;
    var vbits := m.procs[p].vbits;
    NewProcKeeps(m, c, vbits);
    NewChild(m, p, c);
    var m1 := NewProc(m, c, vbits).value;
    SharePagesIs(m1, c, p, vbits, 0);
    forall k: (Pid, nat) | k in m.pte ensures k.0 != c {
      assert EntryOk(m, k);
    }
  }

  /** The version that copies all pages does the same to what the processes see. */
  lemma EagerForkCopies(m: Memory, p: Pid, c: Pid)
    requires Inv(m) && p in m.procs && c !in m.procs && c !in m.dead
    ensures !EagerFork(m, p, c).AssertFailed?
    ensures EagerFork(m, p, c).Done? ==> var n := EagerFork(m, p, c).value;
              && Inv(n) && View(n) == CopyAll(View(m), p, c)
              && n.procs.Keys == m.procs.Keys + {c} && n.dead == m.dead
  {
    var vbits := m.procs[p].vbits;
    if NewProc(m, c, vbits).Done? {
      NewProcKeeps(m, c, vbits);
      NewChild(m, p, c);
      var m1 := NewProc(m, c, vbits).value;
      CopyPagesKeep(m1, c, p, vbits, 0);
      if CopyPages(m1, c, p, vbits, 0).Done? {
        ForkResult(m, m1, CopyPages(m1, c, p, vbits, 0).value, p, c);
      }
    }
  }
}
