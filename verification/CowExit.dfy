/** Exit: every mapping of the process gives back exactly one reference, a frame goes back to its
    pool iff that was the last one, and no other process sees a difference. */
module CowExit {
  import opened Results
  import opened Cow
  import opened CowInvariants
  import opened CowRefines
  import opened CowFork
  import opened Sequences

  // ---------------------------------------------------------------------------------------
  // The walk over the page directory finds every page and page table once.

  /** Entry number of user page i in its page table. */
  function EntryNo(i: nat): nat {
    (USER_BASE + i) % 1024
  }

  lemma {:induction false} EntriesFound(m: Memory, p: Pid, d: nat, e: nat)
    requires e <= 1024
    ensures var r := EntriesFrom(m, p, d, e);
            && (forall x :: x in r <==> x.PagePart? && (p, x.i) in m.pte && Pde(x.i) == d && EntryNo(x.i) >= e)
            && NoRepeat(r)
    decreases 1024 - e
  {
    if e < 1024 {
      EntriesFound(m, p, d, e + 1);
      var r := EntriesFrom(m, p, d, e);
      var t := EntriesFrom(m, p, d, e + 1);
      var a := d * 1024 + e;
      if a >= USER_BASE && (p, a - USER_BASE) in m.pte {
        assert r == [PagePart(a - USER_BASE)] + t;
        assert Pde(a - USER_BASE) == d && EntryNo(a - USER_BASE) == e;
        NoRepeatConcat([PagePart(a - USER_BASE)], t);
      }
      forall x: Part ensures x in r <==> x.PagePart? && (p, x.i) in m.pte && Pde(x.i) == d && EntryNo(x.i) >= e {
        EntryAddress(x, d, e);
        if x in r && x !in t {
          assert r[0] == x;
        }
      }
    }
  }

  lemma EntryAddress(x: Part, d: nat, e: nat)
    requires e < 1024
    ensures x.PagePart? && Pde(x.i) == d && EntryNo(x.i) == e <==> x.PagePart? && USER_BASE + x.i == d * 1024 + e
  {
  }

  lemma NoRepeatConcat(a: seq<Part>, b: seq<Part>)
    requires NoRepeat(a) && NoRepeat(b) && forall x :: x in a ==> x !in b
    ensures NoRepeat(a + b)
  {
    var c := a + b;
    forall i, j | 0 <= i < j < |c| ensures c[i] != c[j] {
      if i < |a| <= j {
        assert c[i] in a && c[j] in b;
      }
    }
  }

  lemma {:induction false} TablesFound(m: Memory, p: Pid, d: nat)
    requires d <= 768
    ensures var r := TablesFrom(m, p, d);
            && (forall x :: x in r <==>
                  || (x.PagePart? && (p, x.i) in m.pte && d <= Pde(x.i) < 768 && (p, Pde(x.i)) in m.tables)
                  || (x.TablePart? && (p, x.d) in m.tables && d <= x.d < 768))
            && NoRepeat(r)
    decreases 768 - d
  {
    hide NoRepeat, Pde, EntryNo, EntriesFrom;
    NoRepeatShort(TablePart(d));
    if d < 768 {
      TablesFound(m, p, d + 1);
      if (p, d) in m.tables {
        EntriesFound(m, p, d, 0);
        var a, b := EntriesFrom(m, p, d, 0), TablesFrom(m, p, d + 1);
        NoRepeatConcat(a, [TablePart(d)]);
        NoRepeatConcat(a + [TablePart(d)], b);
        assert forall x :: x in a + [TablePart(d)] + b <==> x in a || x == TablePart(d) || x in b;
      }
    }
  }

  lemma NoRepeatShort(x: Part)
    ensures NoRepeat<Part>([]) && NoRepeat([x])
  {
  }

  /** What exit gives back: all pages, all page tables, 22 of the 23 bitmap pages; each once. */
  lemma ReleaseFound(m: Memory, p: Pid)
    requires EntriesInv(m) && ProcsInv(m) && p in m.procs
    ensures var r := ReleaseParts(m, p);
            && (forall x :: x in r <==> match x
                  case PagePart(i) => (p, i) in m.pte
                  case TablePart(d) => (p, d) in m.tables
                  case OwnPart(k) => 1 <= k <= 22)
            && NoRepeat(r)
  {
    TablesFound(m, p, 0);
    var a := TablesFrom(m, p, 0);
    var b := seq(BITMAP_PAGES_FREED, k requires 0 <= k < BITMAP_PAGES_FREED => OwnPart(k + 1));
    assert forall k :: 1 <= k <= BITMAP_PAGES_FREED ==> b[k - 1] == OwnPart(k);
    NoRepeatConcat(a, b);
    forall i | (p, i) in m.pte ensures PagePart(i) in a {
      assert EntryOk(m, (p, i));
    }
  }

  // ---------------------------------------------------------------------------------------
  // Giving back a list of different frames.

  lemma {:induction false} FreeAllCounts(m: Memory, fs: seq<nat>)
    requires Shape(m) && BitsInv(m)
    requires forall f <- fs :: FrameOk(m, f) && m.mem[f] > 0
    requires forall i, j :: 0 <= i < j < |fs| ==> fs[i] != fs[j]
    ensures FreeAll(m, fs).Done?
    ensures var n := FreeAll(m, fs).value;
            && BitsInv(n) && SameUse(m, n) && n.data == m.data
            && forall f :: 0 <= f < |m.mem| ==> n.mem[f] == if f in fs then m.mem[f] - 1 else m.mem[f]
    decreases |fs|
  {
    if fs != [] {
      FreeOneBits(m, fs[0]);
      var k := FreePhyPage(m, fs[0]).value;
      forall f | f in fs[1..] ensures f in fs && f != fs[0] {
      }
      FreeAllCounts(k, fs[1..]);
      assert fs == [fs[0]] + fs[1..];
    }
  }

  lemma FreeOneBits(m: Memory, f: nat)
    requires Shape(m) && BitsInv(m) && FrameOk(m, f) && m.mem[f] > 0
    ensures FreePhyPage(m, f).Done?
    ensures var n := FreePhyPage(m, f).value;
            BitsInv(n) && SameUse(m, n) && n.data == m.data && n.mem == m.mem[f := m.mem[f] - 1]
  {
    var n := FreePhyPage(m, f).value;
    forall g | 0 <= g < |n.mem|
      ensures if FrameOk(n, g) then Used(n, g) <==> n.mem[g] > 0 else n.mem[g] == 0
    {
      assert if FrameOk(m, g) then Used(m, g) <==> m.mem[g] > 0 else m.mem[g] == 0;
    }
  }

  // ---------------------------------------------------------------------------------------
  // Exit.

  /** Frame f is given back by the exit of p. */
  ghost predicate Returned(m: Memory, p: Pid, f: nat) {
    || (exists i :: (p, i) in m.pte && m.pte[(p, i)].frame == f)
    || (exists d :: (p, d) in m.tables && m.tables[(p, d)] == f)
    || (p in m.procs && exists k :: 1 <= k <= BITMAP_PAGES_FREED && k < |m.procs[p].own| && m.procs[p].own[k] == f)
  }

  /** The slot in which a part of process p holds its frame. */
  function PartSlot(p: Pid, x: Part): Slot
    requires !x.PagePart?
  {
    if x.TablePart? then TableSlot(p, x.d) else OwnSlot(p, x.k)
  }

  /** Different parts of one process hold different frames. */
  lemma PartsApart(m: Memory, p: Pid, x: Part, y: Part)
    requires SlotInv(m) && Spot(m) && Present(m, p, x) && Present(m, p, y) && x != y
    ensures PartFrame(m, p, x) != PartFrame(m, p, y)
  {
    var f, g := PartFrame(m, p, x), PartFrame(m, p, y);
    assert x.PagePart? ==> (p, x.i) in PageRefs(m, f);
    assert y.PagePart? ==> (p, y.i) in PageRefs(m, g);
    assert !x.PagePart? ==> Held(m, PartSlot(p, x)) && SlotFrame(m, PartSlot(p, x)) == f;
    assert !y.PagePart? ==> Held(m, PartSlot(p, y)) && SlotFrame(m, PartSlot(p, y)) == g;
  }

  lemma PartsCounted(m: Memory, p: Pid, x: Part)
    requires Core(m) && Present(m, p, x)
    ensures FrameOk(m, PartFrame(m, p, x)) && m.mem[PartFrame(m, p, x)] > 0
  {
    if x.PagePart? {
      EntryFacts(m, p, x.i);
    } else {
      assert Held(m, PartSlot(p, x));
    }
  }

  /** The counts after release_prog_resource. */
  lemma ReleaseCounts(m: Memory, p: Pid)
    requires Inv(m) && p in m.procs
    ensures |m.procs[p].own| == OWN
    ensures forall f <- Frames(m, p, ReleaseParts(m, p)) :: FrameOk(m, f)
    ensures var r := FreeAll(m, Frames(m, p, ReleaseParts(m, p)));
            && r.Done? && BitsInv(r.value) && SameUse(m, r.value) && r.value.data == m.data
            && forall f :: 0 <= f < |m.mem| ==> r.value.mem[f] + (if Returned(m, p, f) then 1 else 0) == m.mem[f]
  {
    ReleaseFound(m, p);
    var parts := ReleaseParts(m, p);
    var fs := Frames(m, p, parts);
    forall f | f in fs ensures FrameOk(m, f) && m.mem[f] > 0 {
      var j :| 0 <= j < |fs| && fs[j] == f;
      PartsCounted(m, p, parts[j]);
    }
    forall i, j | 0 <= i < j < |fs| ensures fs[i] != fs[j] {
      PartsApart(m, p, parts[i], parts[j]);
    }
    FreeAllCounts(m, fs);
    forall f: nat ensures f in fs <==> Returned(m, p, f) {
      ReturnedIff(m, p, f);
    }
  }

  lemma ReturnedIff(m: Memory, p: Pid, f: nat)
    requires EntriesInv(m) && ProcsInv(m) && p in m.procs
    ensures f in Frames(m, p, ReleaseParts(m, p)) <==> Returned(m, p, f)
  {
    ReleaseFound(m, p);
    var parts := ReleaseParts(m, p);
    var fs := Frames(m, p, parts);
    if f in fs {
      var j :| 0 <= j < |fs| && fs[j] == f;
      assert parts[j] in parts;
    }
    if i :| (p, i) in m.pte && m.pte[(p, i)].frame == f {
      InFrames(m, p, parts, PagePart(i));
    }
    if d :| (p, d) in m.tables && m.tables[(p, d)] == f {
      InFrames(m, p, parts, TablePart(d));
    }
    if k :| 1 <= k <= BITMAP_PAGES_FREED && k < |m.procs[p].own| && m.procs[p].own[k] == f {
      InFrames(m, p, parts, OwnPart(k));
    }
  }

  lemma InFrames(m: Memory, p: Pid, parts: seq<Part>, x: Part)
    requires (forall y <- parts :: Present(m, p, y)) && x in parts
    ensures PartFrame(m, p, x) in Frames(m, p, parts)
  {
    var j :| 0 <= j < |parts| && parts[j] == x;
    assert Frames(m, p, parts)[j] == PartFrame(m, p, x);
  }

  /** What exit changes, field by field. */
  ghost predicate AfterExit(m: Memory, p: Pid, n: Memory) {
    && Shape(n) && BitsInv(n) && n.data == m.data && |n.mem| == |m.mem| && |n.kbits| == |m.kbits|
    && (forall f: nat :: FrameOk(n, f) <==> FrameOk(m, f))
    && (forall k :: k in n.pte <==> k in m.pte && k.0 != p) && (forall k :: k in n.pte ==> n.pte[k] == m.pte[k])
    && (forall k :: k in n.tables <==> k in m.tables && k.0 != p)
    && (forall k :: k in n.tables ==> n.tables[k] == m.tables[k])
    && p in m.procs && |m.procs[p].own| == OWN && n.procs == m.procs - {p}
    && n.dead == m.dead[p := Corpse(m.procs[p].own[0], m.procs[p].own[OWN - 1])]
    && (forall f :: 0 <= f < |m.mem| ==> n.mem[f] + (if Returned(m, p, f) then 1 else 0) == m.mem[f])
    && forall f: nat :: PageRefs(n, f) == set k | k in PageRefs(m, f) && k.0 != p
  }

  lemma ExitSlots(m: Memory, p: Pid, n: Memory)
    requires AfterExit(m, p, n)
    ensures forall s :: SlotFrame(n, s) ==
              if s.CorpseSlot? && s.p == p then (if s.k <= 1 then SlotFrame(m, Before(p, s)) else -1)
              else if s.p == p then -1 else SlotFrame(m, s)
  {
    hide Returned, BitsInv;
  }

  /** The slot of m that slot s of the state after the exit of p comes from. */
  function Before(p: Pid, s: Slot): Slot {
    if s.CorpseSlot? && s.p == p then OwnSlot(p, if s.k == 0 then 0 else OWN - 1) else s
  }

  /** A frame that stays in a slot was not given back. */
  lemma KeptSlot(m: Memory, p: Pid, s: Slot)
    requires Core(m) && p in m.procs && SlotFrame(m, s) >= 0
    requires s.p != p || s == OwnSlot(p, 0) || s == OwnSlot(p, OWN - 1)
    ensures !Returned(m, p, SlotFrame(m, s))
  {
    var f := SlotFrame(m, s);
    assert Held(m, s);
    assert forall i :: (p, i) in m.pte && m.pte[(p, i)].frame == f ==> (p, i) in PageRefs(m, f);
    assert forall d :: (p, d) in m.tables ==> SlotFrame(m, TableSlot(p, d)) == m.tables[(p, d)];
    assert forall k: nat :: k < |m.procs[p].own| ==> SlotFrame(m, OwnSlot(p, k)) == m.procs[p].own[k];
  }

  /** Entries that stay. */
  lemma ExitRefs(m: Memory, p: Pid, f: nat)
    requires Core(m) && Spot(m) && p in m.procs && f < |m.mem|
    ensures var rest := set k | k in PageRefs(m, f) && k.0 != p;
            && (Returned(m, p, f) && PageRefs(m, f) != {} ==> |rest| == |PageRefs(m, f)| - 1)
            && (!Returned(m, p, f) ==> rest == PageRefs(m, f))
  {
    hide BitsInv, SlotInv, CountInv, EntriesInv;
    var all := PageRefs(m, f);
    if Returned(m, p, f) && all != {} {
      var i := TheEntry(m, p, f);
      assert (p, i) in all;
      OneOfP(all, p, i);
    }
    if !Returned(m, p, f) {
      forall k | k in all ensures k.0 != p {
        assert k == (k.0, k.1);
      }
    }
  }

  lemma OneOfP(all: set<(Pid, nat)>, p: Pid, i: nat)
    requires (p, i) in all && forall k, l :: k in all && l in all ==> k.1 == l.1
    ensures |set k | k in all && k.0 != p| == |all| - 1
  {
    forall k | k in all && k != (p, i) ensures k.0 != p {
      assert k == (k.0, k.1);
    }
    assert (set k | k in all && k.0 != p) == all - {(p, i)};
  }

  lemma TheEntry(m: Memory, p: Pid, f: nat) returns (i: nat)
    requires Core(m) && p in m.procs && Returned(m, p, f) && PageRefs(m, f) != {}
    ensures (p, i) in m.pte && m.pte[(p, i)].frame == f
  {
    assert forall d :: (p, d) in m.tables ==>
           Held(m, TableSlot(p, d)) && SlotFrame(m, TableSlot(p, d)) == m.tables[(p, d)];
    assert forall k: nat :: k < |m.procs[p].own| ==>
           Held(m, OwnSlot(p, k)) && SlotFrame(m, OwnSlot(p, k)) == m.procs[p].own[k];
    i :| (p, i) in m.pte && m.pte[(p, i)].frame == f;
  }

  lemma ExitShape(m: Memory, p: Pid)
    requires Inv(m) && p in m.procs
    ensures |m.procs[p].own| == OWN && forall f <- Frames(m, p, ReleaseParts(m, p)) :: FrameOk(m, f)
    ensures Exit(m, p).Done? && AfterExit(m, p, Exit(m, p).value)
  {
    hide EntriesInv, SlotInv, CountInv, Spot, BitsInv, Returned, Frames, ReleaseParts, FreeAll;
    ReleaseCounts(m, p);
    var n0 := FreeAll(m, Frames(m, p, ReleaseParts(m, p))).value;
    var n := Exit(m, p).value;
    BitsElsewhere(n0, n);
    assert forall f: nat :: PageRefs(n, f) == set k | k in PageRefs(m, f) && k.0 != p;
  }

  lemma BitsElsewhere(m: Memory, n: Memory)
    requires BitsInv(m) && n == m.(pte := n.pte, tables := n.tables, procs := n.procs, dead := n.dead)
    ensures BitsInv(n)
  {
    forall g | 0 <= g < |n.mem|
      ensures if FrameOk(n, g) then Used(n, g) <==> n.mem[g] > 0 else n.mem[g] == 0
    {
      assert if FrameOk(m, g) then Used(m, g) <==> m.mem[g] > 0 else m.mem[g] == 0;
    }
  }

  lemma ExitSlotInv(m: Memory, p: Pid, n: Memory)
    requires Core(m) && AfterExit(m, p, n)
    ensures SlotInv(n)
  {
    hide BitsInv, EntriesInv, CountInv, Returned;
    ExitSlots(m, p, n);
    forall s ensures Held(n, s) {
      if SlotFrame(n, s) >= 0 {
        assert SlotFrame(n, s) == SlotFrame(m, Before(p, s));
        assert Held(m, Before(p, s));
        KeptSlot(m, p, Before(p, s));
      }
    }
    forall s, t | SlotFrame(n, s) >= 0 && SlotFrame(n, s) == SlotFrame(n, t) ensures s == t {
      assert Before(p, s) == Before(p, t);
      assert m.procs[p].own[0] == SlotFrame(m, OwnSlot(p, 0));
    }
  }

  lemma ExitCore(m: Memory, p: Pid, n: Memory)
    requires Core(m) && Spot(m) && AfterExit(m, p, n)
    ensures Core(n)
  {
    hide BitsInv, SlotInv, Spot, Returned;
    ExitSlotInv(m, p, n);
    forall f | 0 <= f < |n.mem| && PageRefs(n, f) != {} ensures n.mem[f] == |PageRefs(n, f)| {
      ExitRefs(m, p, f);
    }
    forall k | k in n.pte ensures EntryOk(n, k) {
      assert EntryOk(m, k);
      var f := m.pte[k].frame;
      assert k in PageRefs(n, f) && k in PageRefs(m, f);
      ExitRefs(m, p, f);
      if m.pte[k].writable {
        SingleRef(PageRefs(m, f), PageRefs(n, f), k);
      }
    }
  }

  lemma SingleRef(all: set<(Pid, nat)>, rest: set<(Pid, nat)>, k: (Pid, nat))
    requires k in rest && |all| == 1
    ensures |rest| != |all| - 1
  {
  }

  /** Exit keeps the invariant, takes away the pages of the process alone, and cannot trip an
      ASSERT; each frame loses one reference per mapping of the process, and is free afterwards
      iff that was its last. */
  lemma ExitRefines(m: Memory, p: Pid)
    requires Inv(m) && p in m.procs
    ensures |m.procs[p].own| == OWN && forall f <- Frames(m, p, ReleaseParts(m, p)) :: FrameOk(m, f)
    ensures Exit(m, p).Done? && ExitEffect(m, p, Exit(m, p).value)
  {
    hide BitsInv, SlotInv, CountInv, Spot, Frames, ReleaseParts, Exit, Returned;
    ExitShape(m, p);
    var n := Exit(m, p).value;
    ExitCore(m, p, n);
    ExitSpot(m, n, p);
    forall q | q in n.procs ensures |n.procs[q].vbits| == USER_BITS && BitmapOf(n, q) {
      assert BitmapOf(m, q);
    }
    forall k | k in m.pte && k.0 == p ensures Dropped(m, n, k) {
      ExitFrees(m, n, p, k);
    }
    OwnIsFreed(m, n, p);
    ExitView(m, n, p);
  }

  ghost predicate ExitEffect(m: Memory, p: Pid, n: Memory) {
    && Inv(n) && n.procs.Keys == m.procs.Keys - {p} && n.dead.Keys == m.dead.Keys + {p}
    && View(n) == (map k | k in View(m) && k.0 != p :: View(m)[k])
    && (forall k :: k in m.pte && k.0 == p ==> Dropped(m, n, k))
    && p in m.procs && |m.procs[p].own| == 25 && OwnFreed(m, n, p)
  }

  /** PCB and page directory are kept for the parent; of the 23 pages of the address bitmap 22 are free, and the last
      one is lost. */
  ghost predicate OwnFreed(m: Memory, n: Memory, p: Pid)
    requires p in m.procs && |m.procs[p].own| == 25
  {
    var own := m.procs[p].own;
    && p in n.dead && n.dead[p] == Corpse(own[0], own[24])
    && (forall k :: 0 <= k < 25 ==> own[k] < |m.mem| == |n.mem| && m.mem[own[k]] == 1)
    && forall k :: 0 <= k < 25 ==> n.mem[own[k]] == if 1 <= k <= 22 then 0 else 1
  }

  lemma OwnIsFreed(m: Memory, n: Memory, p: Pid)
    requires Inv(m) && AfterExit(m, p, n)
    ensures |m.procs[p].own| == 25 && OwnFreed(m, n, p)
  {
    hide BitsInv, EntriesInv, CountInv, Spot, BitmapOf, Returned;
    var own := m.procs[p].own;
    forall k | 0 <= k < 25
      ensures own[k] < |m.mem| && m.mem[own[k]] == 1 && (Returned(m, p, own[k]) <==> 1 <= k <= 22)
    {
      assert Held(m, OwnSlot(p, k)) && SlotFrame(m, OwnSlot(p, k)) == own[k];
      OwnReturned(m, p, k);
    }
  }

  lemma OwnReturned(m: Memory, p: Pid, k: nat)
    requires SlotInv(m) && p in m.procs && |m.procs[p].own| == 25 && k < 25
    ensures Returned(m, p, m.procs[p].own[k]) <==> 1 <= k <= 22
  {
    var own := m.procs[p].own;
    var f := own[k];
    assert Held(m, OwnSlot(p, k)) && SlotFrame(m, OwnSlot(p, k)) == f;
    forall i | (p, i) in m.pte ensures m.pte[(p, i)].frame != f {
      assert (p, i) in PageRefs(m, m.pte[(p, i)].frame);
    }
    forall d | (p, d) in m.tables ensures m.tables[(p, d)] != f {
      assert SlotFrame(m, TableSlot(p, d)) == m.tables[(p, d)];
    }
    forall j: nat | j < 25 && own[j] == f ensures j == k {
      assert SlotFrame(m, OwnSlot(p, j)) == f;
    }
  }

  /** Between m and n the frame of entry k lost one reference, and its pool bit iff that was the last. */
  ghost predicate Dropped(m: Memory, n: Memory, k: (Pid, nat))
    requires k in m.pte
  {
    var f := m.pte[k].frame;
    f < |m.mem| && FrameOk(n, f) && n.mem[f] + 1 == m.mem[f] && (!Used(n, f) <==> PageRefs(m, f) == {k})
  }

  lemma ExitView(m: Memory, n: Memory, p: Pid)
    requires n.data == m.data && (forall k :: k in n.pte <==> k in m.pte && k.0 != p)
    requires forall k :: k in n.pte ==> n.pte[k] == m.pte[k]
    ensures View(n) == (map k | k in View(m) && k.0 != p :: View(m)[k])
  {
  }

  lemma ExitSpot(m: Memory, n: Memory, p: Pid)
    requires Spot(m) && forall f: nat :: PageRefs(n, f) == set k | k in PageRefs(m, f) && k.0 != p
    ensures Spot(n)
  {
  }

  lemma ExitFrees(m: Memory, n: Memory, p: Pid, k: (Pid, nat))
    requires Core(m) && k in m.pte && k.0 == p && AfterExit(m, p, n)
    ensures Dropped(m, n, k)
  {
    hide ProcsInv, SlotInv, EntriesInv, CountInv;
    assert k == (p, k.1);
    EntryFacts(m, p, k.1);
    var f := m.pte[k].frame;
    assert Returned(m, p, f);
    if m.mem[f] == 1 && PageRefs(m, f) != {k} {
      var l :| l in PageRefs(m, f) && l != k;
      TwoRefs(m, f, k, l);
    }
  }

  // ---------------------------------------------------------------------------------------
  // The parent's wait.

  lemma ReapRefines(m: Memory, p: Pid)
    requires Inv(m) && p in m.dead
    ensures FrameOk(m, m.dead[p].pgdir) && FrameOk(m, m.dead[p].pcb)
    ensures Reap(m, p).Done?
    ensures var n := Reap(m, p).value;
            Inv(n) && Abs(n) == Abs(m) && n.dead == m.dead - {p}
            && n.mem == m.mem[m.dead[p].pgdir := 0][m.dead[p].pcb := 0]
  {
    hide BitsInv, CountInv, Spot;
    var a, b := CorpseSlot(p, 1), CorpseSlot(p, 0);
    assert Held(m, a) && Held(m, b) && SlotFrame(m, a) == m.dead[p].pgdir && SlotFrame(m, b) == m.dead[p].pcb;
    var n0 := m.(dead := m.dead - {p});
    Forget(m, p);
    FreeKeeps(n0, m.dead[p].pgdir);
    var n1 := FreePhyPage(n0, m.dead[p].pgdir).value;
    SameUseRefs(n0, n1);
    FreeKeeps(n1, m.dead[p].pcb);
    var n2 := FreePhyPage(n1, m.dead[p].pcb).value;
    SameUseRefs(n1, n2);
    assert FreePhyPage(m, m.dead[p].pgdir) == Done(n1.(dead := m.dead));
    assert FreePhyPage(n1.(dead := m.dead), m.dead[p].pcb) == Done(n2.(dead := m.dead));
    var fs := [m.dead[p].pgdir, m.dead[p].pcb];
    assert fs[1..] == [m.dead[p].pcb] && fs[1..][1..] == [];
    assert FreeAll(n2.(dead := m.dead), []) == Done(n2.(dead := m.dead));
    assert FreeAll(n1.(dead := m.dead), fs[1..]) == Done(n2.(dead := m.dead));
    assert FreeAll(m, fs) == Done(n2.(dead := m.dead));
    assert Reap(m, p).value == n2;
    SpotSame(m, n2);
    ViewSame(m, n2);
    forall q | q in n2.procs ensures |n2.procs[q].vbits| == USER_BITS && BitmapOf(n2, q) {
      assert BitmapOf(m, q);
    }
  }

  /** Without the corpse its two frames are loose. */
  lemma Forget(m: Memory, p: Pid)
    requires Core(m) && p in m.dead
    ensures var n := m.(dead := m.dead - {p});
            Core(n) && Loose(n, m.dead[p].pgdir) && Loose(n, m.dead[p].pcb) && m.dead[p].pgdir != m.dead[p].pcb
            && forall f: nat :: PageRefs(n, f) == PageRefs(m, f)
  {
    hide BitsInv;
    var n := m.(dead := m.dead - {p});
    BitsElsewhere(m, n);
    var a, b := CorpseSlot(p, 1), CorpseSlot(p, 0);
    assert Held(m, a) && Held(m, b) && SlotFrame(m, a) == m.dead[p].pgdir && SlotFrame(m, b) == m.dead[p].pcb;
    assert forall f: nat :: PageRefs(n, f) == PageRefs(m, f);
    forall s ensures SlotFrame(n, s) == if s.CorpseSlot? && s.p == p then -1 else SlotFrame(m, s) {
    }
    forall s ensures Held(n, s) {
      assert Held(m, s);
    }
    forall k | k in n.pte ensures EntryOk(n, k) {
      assert EntryOk(m, k);
    }
  }
}
