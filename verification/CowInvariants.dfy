/** What every operation of the copy-on-write memory keeps: the sharer counts are the number of
    page table entries, pool bits follow the counts, a writable entry is the only one. */
module CowInvariants {
  import opened Cow

  // ---------------------------------------------------------------------------------------
  // Statements.

  /** The present page table entries, over all processes, that point at frame f. */
  ghost function PageRefs(m: Memory, f: nat): set<(Pid, nat)> {
    set k | k in m.pte && m.pte[k].frame == f
  }

  /** A frame the kernel holds for a process: never a user page. */
  datatype Slot = OwnSlot(p: Pid, k: nat) | TableSlot(p: Pid, d: nat) | CorpseSlot(p: Pid, k: nat)

  /** The frame in a slot, -1 when there is no such slot. */
  ghost function SlotFrame(m: Memory, s: Slot): int {
    match s
    case OwnSlot(p, k) => if p in m.procs && k < |m.procs[p].own| then m.procs[p].own[k] else -1
    case TableSlot(p, d) => if (p, d) in m.tables then m.tables[(p, d)] else -1
    case CorpseSlot(p, k) =>
      if p !in m.dead then -1 else if k == 0 then m.dead[p].pcb else if k == 1 then m.dead[p].pgdir else -1
  }

  /** A pool bit is set iff the frame's count is positive; nothing outside the pools is counted. */
  ghost predicate BitsInv(m: Memory) {
    forall f :: 0 <= f < |m.mem| ==> if FrameOk(m, f) then Used(m, f) <==> m.mem[f] > 0 else m.mem[f] == 0
  }

  ghost predicate EntryOk(m: Memory, k: (Pid, nat))
    requires k in m.pte
  {
    && k.0 in m.procs && k.1 < USER_BITS && (k.0, Pde(k.1)) in m.tables
    && FrameOk(m, m.pte[k].frame)
    // a writable entry is the frame's only one
    && (m.pte[k].writable ==> m.mem[m.pte[k].frame] == 1)
  }

  ghost predicate EntriesInv(m: Memory) {
    && (forall k :: k in m.pte ==> EntryOk(m, k))
    && (forall k :: k in m.tables ==> k.0 in m.procs && k.1 < 768)
  }

  /** A shared frame is the same page in all its processes. */
  ghost predicate Spot(m: Memory) {
    forall f: nat, k, l :: k in PageRefs(m, f) && l in PageRefs(m, f) ==> k.1 == l.1
  }

  ghost predicate ProcsInv(m: Memory) {
    && (forall p :: p in m.procs ==> |m.procs[p].own| == OWN && |m.procs[p].vbits| == USER_BITS)
    && (forall p :: p in m.dead ==> p !in m.procs)
  }

  ghost predicate Held(m: Memory, s: Slot) {
    SlotFrame(m, s) >= 0 ==>
      var f := SlotFrame(m, s);
      FrameOk(m, f) && f < |m.kbits| && m.mem[f] == 1 && PageRefs(m, f) == {}
  }

  ghost predicate SlotInv(m: Memory) {
    && (forall s :: Held(m, s))
    && (forall s, t :: SlotFrame(m, s) >= 0 && SlotFrame(m, s) == SlotFrame(m, t) ==> s == t)
  }

  /** The count of a user page's frame is the number of entries that point at it. */
  ghost predicate CountInv(m: Memory) {
    forall f :: 0 <= f < |m.mem| && PageRefs(m, f) != {} ==> m.mem[f] == |PageRefs(m, f)|
  }

  ghost predicate Core(m: Memory) {
    Shape(m) && BitsInv(m) && EntriesInv(m) && ProcsInv(m) && SlotInv(m) && CountInv(m)
  }

  /** The address bitmap of process p says which of its pages are present. */
  ghost predicate BitmapOf(m: Memory, p: Pid)
    requires p in m.procs && |m.procs[p].vbits| == USER_BITS
  {
    forall i :: 0 <= i < USER_BITS ==> (m.procs[p].vbits[i] <==> (p, i) in m.pte)
  }

  ghost predicate Inv(m: Memory) {
    Core(m) && Spot(m) && forall p :: p in m.procs ==> BitmapOf(m, p)
  }

  /** Taken from its pool, not yet used for anything. */
  ghost predicate Loose(m: Memory, f: nat) {
    && FrameOk(m, f) && m.mem[f] == 1 && PageRefs(m, f) == {}
    && forall s :: SlotFrame(m, s) != f
  }

  // ---------------------------------------------------------------------------------------
  // Small steps that keep Core.

  lemma NoRefs(m: Memory, f: nat)
    requires Core(m) && f < |m.mem| && m.mem[f] == 0
    ensures PageRefs(m, f) == {} && forall s :: SlotFrame(m, s) != f
  {
    forall s ensures SlotFrame(m, s) != f {
      assert Held(m, s);
    }
  }

  /** m and n have the same page tables and the same slots. */
  ghost predicate SameUse(m: Memory, n: Memory) {
    && n == m.(mem := n.mem, kbits := n.kbits, ubits := n.ubits, data := n.data)
    && |n.mem| == |m.mem| && |n.kbits| == |m.kbits| && |n.ubits| == |m.ubits| && |n.data| == |m.data|
  }

  lemma SameUseRefs(m: Memory, n: Memory)
    requires SameUse(m, n)
    ensures forall f: nat :: PageRefs(n, f) == PageRefs(m, f)
    ensures forall s :: SlotFrame(n, s) == SlotFrame(m, s)
    ensures forall f: nat :: FrameOk(n, f) <==> FrameOk(m, f)
  {
  }

  lemma PallocKeeps(m: Memory, kernel: bool)
    requires Core(m) && Palloc(m, kernel).Done?
    ensures var (n, f) := Palloc(m, kernel).value;
            Core(n) && Loose(n, f) && SameUse(m, n) && n.data == m.data && m.mem[f] == 0
            && (kernel ==> f < |n.kbits|)
  {
    var (n, f) := Palloc(m, kernel).value;
    PallocBits(m, kernel);
    NoRefs(m, f);
    SameUseRefs(m, n);
    SlotsKept(m, n);
    forall k | k in n.pte ensures EntryOk(n, k) {
      assert EntryOk(m, k);
    }
  }

  lemma PallocBits(m: Memory, kernel: bool)
    requires Shape(m) && BitsInv(m) && Palloc(m, kernel).Done?
    ensures var (n, f) := Palloc(m, kernel).value;
            BitsInv(n) && SameUse(m, n) && m.mem[f] == 0 && (kernel ==> f < |n.kbits|)
  {
    var (n, f) := Palloc(m, kernel).value;
    forall g | 0 <= g < |n.mem|
      ensures if FrameOk(n, g) then Used(n, g) <==> n.mem[g] > 0 else n.mem[g] == 0
    {
      assert if FrameOk(m, g) then Used(m, g) <==> m.mem[g] > 0 else m.mem[g] == 0;
    }
  }

  lemma PallocLoose(m: Memory, kernel: bool, g: nat)
    requires Core(m) && Palloc(m, kernel).Done? && Loose(m, g)
    ensures var (n, f) := Palloc(m, kernel).value; Loose(n, g) && g != f
  {
    var (n, f) := Palloc(m, kernel).value;
    PallocBits(m, kernel);
    SameUseRefs(m, n);
  }

  /** Slots stay good when the frames they hold keep their count and stay unmapped. */
  lemma SlotsKept(m: Memory, n: Memory)
    requires SlotInv(m) && |n.mem| == |m.mem| && |n.kbits| == |m.kbits| && |n.ubits| == |m.ubits|
             && n.kFrames == m.kFrames
    requires forall s :: SlotFrame(n, s) == SlotFrame(m, s)
    requires forall f: nat :: f < |m.mem| && m.mem[f] == 1 && PageRefs(m, f) == {} ==>
             n.mem[f] == 1 && PageRefs(n, f) == {}
    ensures SlotInv(n)
  {
    forall s ensures Held(n, s) {
      assert Held(m, s);
    }
  }

  /** Contents of frames do not matter to the invariant. */
  lemma DataKeeps(m: Memory, data: seq<Page>)
    requires Core(m) && |data| == |m.data|
    ensures Core(m.(data := data))
    ensures forall f :: Loose(m, f) ==> Loose(m.(data := data), f)
  {
    var n := m.(data := data);
    SameUseRefs(m, n);
    forall s ensures Held(n, s) {
      assert Held(m, s);
    }
    forall k | k in n.pte ensures EntryOk(n, k) {
      assert EntryOk(m, k);
    }
  }

  /** A loose frame becomes page i of process p. */
  lemma PageKeeps(m: Memory, p: Pid, i: nat, f: nat, w: bool)
    requires Core(m) && p in m.procs && (p, i) !in m.pte && i < USER_BITS
    requires (p, Pde(i)) in m.tables && Loose(m, f)
    ensures AddPte(m, p, i, f, w).Done? && Core(AddPte(m, p, i, f, w).value)
  {
    var n := AddPte(m, p, i, f, w).value;
    RefsAfterAdd(m, p, i, f, w);
    forall s ensures SlotFrame(n, s) == SlotFrame(m, s) && Held(n, s) {
      assert Held(m, s);
    }
    PageEntries(m, p, i, f, w);
  }

  lemma PageEntries(m: Memory, p: Pid, i: nat, f: nat, w: bool)
    requires EntriesInv(m) && p in m.procs && (p, i) !in m.pte && i < USER_BITS
    requires (p, Pde(i)) in m.tables && Loose(m, f)
    ensures EntriesInv(m.(pte := m.pte[(p, i) := Pte(f, w)]))
  {
    var n := m.(pte := m.pte[(p, i) := Pte(f, w)]);
    forall k | k in n.pte ensures EntryOk(n, k) {
      assert k != (p, i) ==> EntryOk(m, k);
    }
    forall k | k in m.pte ensures m.pte[k].frame != f {
      assert k !in PageRefs(m, f);
    }
  }

  lemma RefsAfterAdd(m: Memory, p: Pid, i: nat, f: nat, w: bool)
    requires (p, i) !in m.pte
    ensures forall g: nat :: PageRefs(m.(pte := m.pte[(p, i) := Pte(f, w)]), g) ==
              PageRefs(m, g) + if g == f then {(p, i)} else {}
  {
  }

  /** An entry changes its access right; it may become writable when it is the frame's only one. */
  lemma AccessKeeps(m: Memory, p: Pid, i: nat, w: bool)
    requires Core(m) && (p, i) in m.pte && (w ==> m.mem[m.pte[(p, i)].frame] == 1)
    ensures ModifyPte(m, p, i, m.pte[(p, i)].frame, w).Done?
    ensures var n := ModifyPte(m, p, i, m.pte[(p, i)].frame, w).value;
            Core(n) && forall f: nat :: PageRefs(n, f) == PageRefs(m, f)
  {
    hide SlotInv, BitsInv, ProcsInv, CountInv;
    assert EntryOk(m, (p, i));
    var n := ModifyPte(m, p, i, m.pte[(p, i)].frame, w).value;
    AccessRefs(m, p, i, w);
    AccessSame(m, n);
    AccessEntries(m, p, i, w);
  }

  lemma AccessRefs(m: Memory, p: Pid, i: nat, w: bool)
    requires (p, i) in m.pte
    ensures var n := m.(pte := m.pte[(p, i) := Pte(m.pte[(p, i)].frame, w)]);
            forall f: nat :: PageRefs(n, f) == PageRefs(m, f)
  {
  }

  /** Access rights do not matter to counts, slots and pools. */
  lemma AccessSame(m: Memory, n: Memory)
    requires BitsInv(m) && ProcsInv(m) && SlotInv(m) && CountInv(m) && n == m.(pte := n.pte)
    requires forall f: nat :: PageRefs(n, f) == PageRefs(m, f)
    ensures BitsInv(n) && ProcsInv(n) && SlotInv(n) && CountInv(n)
  {
    hide PageRefs, BitsInv, ProcsInv, SlotInv;
    assert forall s :: SlotFrame(n, s) == SlotFrame(m, s);
    SlotsKept(m, n);
    PoolsSame(m, n);
  }

  lemma PoolsSame(m: Memory, n: Memory)
    requires BitsInv(m) && ProcsInv(m) && n == m.(pte := n.pte)
    ensures BitsInv(n) && ProcsInv(n)
  {
  }

  lemma AccessEntries(m: Memory, p: Pid, i: nat, w: bool)
    requires EntriesInv(m) && (p, i) in m.pte && m.pte[(p, i)].frame < |m.mem|
             && (w ==> m.mem[m.pte[(p, i)].frame] == 1)
    ensures EntriesInv(m.(pte := m.pte[(p, i) := Pte(m.pte[(p, i)].frame, w)]))
  {
    var n := m.(pte := m.pte[(p, i) := Pte(m.pte[(p, i)].frame, w)]);
    forall k | k in n.pte ensures EntryOk(n, k) {
      assert EntryOk(m, k);
    }
  }

  /** A loose kernel frame becomes page table d of process p. */
  lemma TableKeeps(m: Memory, p: Pid, d: nat, t: nat)
    requires Core(m) && p in m.procs && d < 768 && (p, d) !in m.tables && Loose(m, t) && t < |m.kbits|
    ensures Core(m.(tables := m.tables[(p, d) := t]))
  {
    var n := m.(tables := m.tables[(p, d) := t]);
    assert forall f: nat :: PageRefs(n, f) == PageRefs(m, f);
    assert forall s :: SlotFrame(n, s) == if s == TableSlot(p, d) then t else SlotFrame(m, s);
    forall s ensures Held(n, s) {
      assert Held(m, s);
    }
    forall k | k in n.pte ensures EntryOk(n, k) {
      assert EntryOk(m, k);
    }
  }

  /** Loose, pairwise different kernel frames become the frames of a new process. */
  lemma ProcKeeps(m: Memory, c: Pid, vbits: seq<bool>, own: seq<nat>)
    requires Core(m) && c !in m.procs && c !in m.dead && |vbits| == USER_BITS && |own| == OWN
    requires forall k :: 0 <= k < OWN ==> Loose(m, own[k]) && own[k] < |m.kbits|
    requires forall j, k :: 0 <= j < k < OWN ==> own[j] != own[k]
    ensures Core(m.(procs := m.procs[c := Proc(vbits, own)]))
  {
    var n := m.(procs := m.procs[c := Proc(vbits, own)]);
    assert forall f: nat :: PageRefs(n, f) == PageRefs(m, f);
    forall s ensures SlotFrame(n, s) == if s.OwnSlot? && s.p == c && s.k < OWN then own[s.k] else SlotFrame(m, s) {
    }
    forall s ensures Held(n, s) {
      assert Held(m, s);
      if s.OwnSlot? && s.p == c && s.k < OWN {
        assert Loose(m, own[s.k]);
      }
    }
    OwnDistinct(m, n, c, own);
    forall k | k in n.pte ensures EntryOk(n, k) {
      assert EntryOk(m, k);
    }
  }

  lemma OwnDistinct(m: Memory, n: Memory, c: Pid, own: seq<nat>)
    requires |own| == OWN && SlotInv(m)
    requires forall k :: 0 <= k < OWN ==> Loose(m, own[k])
    requires forall j, k :: 0 <= j < k < OWN ==> own[j] != own[k]
    requires forall s :: SlotFrame(n, s) == if s.OwnSlot? && s.p == c && s.k < OWN then own[s.k] else SlotFrame(m, s)
    ensures forall s, t :: SlotFrame(n, s) >= 0 && SlotFrame(n, s) == SlotFrame(n, t) ==> s == t
  {
    forall s, t | SlotFrame(n, s) >= 0 && SlotFrame(n, s) == SlotFrame(n, t) ensures s == t {
      if s.OwnSlot? && s.p == c && s.k < OWN {
        assert Loose(m, own[s.k]);
      }
      if t.OwnSlot? && t.p == c && t.k < OWN {
        assert Loose(m, own[t.k]);
      }
    }
  }

  /** One more read-only entry for a frame that is already shared read-only. */
  lemma ShareKeeps(m: Memory, c: Pid, i: nat, f: nat)
    requires Core(m) && c in m.procs && (c, i) !in m.pte && i < USER_BITS && (c, Pde(i)) in m.tables
    requires PageRefs(m, f) != {} && f < |m.mem|
    requires forall k :: k in PageRefs(m, f) ==> !m.pte[k].writable
    ensures Core(m.(pte := m.pte[(c, i) := Pte(f, false)], mem := m.mem[f := m.mem[f] + 1]))
  {
    hide BitsInv, EntriesInv, ProcsInv, SlotInv, CountInv, SlotFrame;
    var n := m.(pte := m.pte[(c, i) := Pte(f, false)], mem := m.mem[f := m.mem[f] + 1]);
    var k0 :| k0 in PageRefs(m, f);
    EntryOkOf(m, k0);
    CountPositive(m, f);
    ShareCount(m, c, i, f);
    SlotsKept(m, n);
    ShareEntries(m, c, i, f);
    CountBits(m, n, f);
    ProcsSame(m, n);
  }

  lemma EntryOkOf(m: Memory, k: (Pid, nat))
    requires EntriesInv(m) && k in m.pte
    ensures EntryOk(m, k)
  {
  }

  lemma CountPositive(m: Memory, f: nat)
    requires CountInv(m) && f < |m.mem| && PageRefs(m, f) != {}
    ensures m.mem[f] > 0
  {
  }

  lemma ProcsSame(m: Memory, n: Memory)
    requires ProcsInv(m) && n.procs == m.procs && n.dead == m.dead
    ensures ProcsInv(n)
  {
  }

  lemma ShareRefs(m: Memory, c: Pid, i: nat, f: nat, count: seq<nat>, g: nat)
    requires (c, i) !in m.pte
    ensures PageRefs(m.(pte := m.pte[(c, i) := Pte(f, false)], mem := count), g) ==
              PageRefs(m, g) + if g == f then {(c, i)} else {}
    ensures (c, i) !in PageRefs(m, g)
  {
  }

  lemma ShareCount(m: Memory, c: Pid, i: nat, f: nat)
    requires CountInv(m) && (c, i) !in m.pte && PageRefs(m, f) != {} && f < |m.mem|
    ensures var n := m.(pte := m.pte[(c, i) := Pte(f, false)], mem := m.mem[f := m.mem[f] + 1]);
            && CountInv(n) && (forall s :: SlotFrame(n, s) == SlotFrame(m, s))
            && forall g: nat :: PageRefs(n, g) == PageRefs(m, g) + if g == f then {(c, i)} else {}
  {
    var n := m.(pte := m.pte[(c, i) := Pte(f, false)], mem := m.mem[f := m.mem[f] + 1]);
    forall g: nat
      ensures PageRefs(n, g) == PageRefs(m, g) + if g == f then {(c, i)} else {}
      ensures g < |n.mem| && PageRefs(n, g) != {} ==> n.mem[g] == |PageRefs(n, g)|
    {
      ShareRefs(m, c, i, f, m.mem[f := m.mem[f] + 1], g);
    }
  }

  lemma ShareEntries(m: Memory, c: Pid, i: nat, f: nat)
    requires EntriesInv(m) && c in m.procs && (c, i) !in m.pte && i < USER_BITS && (c, Pde(i)) in m.tables
    requires FrameOk(m, f) && forall k :: k in PageRefs(m, f) ==> !m.pte[k].writable
    ensures EntriesInv(m.(pte := m.pte[(c, i) := Pte(f, false)], mem := m.mem[f := m.mem[f] + 1]))
  {
    var n := m.(pte := m.pte[(c, i) := Pte(f, false)], mem := m.mem[f := m.mem[f] + 1]);
    forall k | k in n.pte ensures EntryOk(n, k) {
      if k != (c, i) {
        assert EntryOk(m, k);
        assert n.pte[k].frame == f ==> k in PageRefs(m, f);
      }
    }
  }

  /** Pool bits stay right when a positive count changes to a positive one. */
  lemma CountBits(m: Memory, n: Memory, f: nat)
    requires BitsInv(m) && FrameOk(m, f) && m.mem[f] > 0
    requires n == m.(mem := n.mem, pte := n.pte, data := n.data) && |n.mem| == |m.mem|
    requires n.mem[f] > 0 && forall g :: 0 <= g < |m.mem| && g != f ==> n.mem[g] == m.mem[g]
    ensures BitsInv(n)
  {
    forall g | 0 <= g < |n.mem|
      ensures if FrameOk(n, g) then Used(n, g) <==> n.mem[g] > 0 else n.mem[g] == 0
    {
      assert if FrameOk(m, g) then Used(m, g) <==> m.mem[g] > 0 else m.mem[g] == 0;
    }
  }

  /** A shared entry moves from frame f to a loose frame g. */
  lemma SplitKeeps(m: Memory, p: Pid, i: nat, f: nat, g: nat)
    requires Core(m) && (p, i) in m.pte && m.pte[(p, i)].frame == f && m.mem[f] > 1 && Loose(m, g)
    ensures Core(m.(pte := m.pte[(p, i) := Pte(g, true)], mem := m.mem[f := m.mem[f] - 1]))
  {
    hide BitsInv, EntriesInv, ProcsInv, SlotInv, CountInv, SlotFrame;
    EntryOkOf(m, (p, i));
    var n := m.(pte := m.pte[(p, i) := Pte(g, true)], mem := m.mem[f := m.mem[f] - 1]);
    SplitCount(m, p, i, f, g);
    SplitSlots(m, n, g);
    SplitEntries(m, p, i, f, g);
    CountBits(m, n, f);
    ProcsSame(m, n);
  }

  /** Slots hold neither shared frames nor the frame g that comes into use. */
  lemma SplitSlots(m: Memory, n: Memory, g: nat)
    requires SlotInv(m) && n.kbits == m.kbits && n.ubits == m.ubits && n.kFrames == m.kFrames && |n.mem| == |m.mem|
    requires forall s :: SlotFrame(n, s) == SlotFrame(m, s) && SlotFrame(m, s) != g
    requires forall f: nat :: f < |m.mem| && f != g && m.mem[f] == 1 && PageRefs(m, f) == {} ==>
             n.mem[f] == 1 && PageRefs(n, f) == {}
    ensures SlotInv(n)
  {
    hide SlotFrame;
    forall s ensures Held(n, s) {
      assert Held(m, s);
    }
  }

  lemma SplitEntries(m: Memory, p: Pid, i: nat, f: nat, g: nat)
    requires EntriesInv(m) && (p, i) in m.pte && f < |m.mem| && m.mem[f] > 1 && Loose(m, g)
    ensures EntriesInv(m.(pte := m.pte[(p, i) := Pte(g, true)], mem := m.mem[f := m.mem[f] - 1]))
  {
    var n := m.(pte := m.pte[(p, i) := Pte(g, true)], mem := m.mem[f := m.mem[f] - 1]);
    forall k | k in n.pte ensures EntryOk(n, k) {
      assert EntryOk(m, k);
    }
  }

  lemma SplitCount(m: Memory, p: Pid, i: nat, f: nat, g: nat)
    requires CountInv(m) && (p, i) in m.pte && m.pte[(p, i)].frame == f && f < |m.mem| && m.mem[f] > 1 && Loose(m, g)
    ensures var n := m.(pte := m.pte[(p, i) := Pte(g, true)], mem := m.mem[f := m.mem[f] - 1]);
            && CountInv(n) && (forall s :: SlotFrame(n, s) == SlotFrame(m, s))
            && forall h: nat :: PageRefs(n, h) == if h == f then PageRefs(m, f) - {(p, i)}
                                                  else if h == g then {(p, i)} else PageRefs(m, h)
  {
    var n := m.(pte := m.pte[(p, i) := Pte(g, true)], mem := m.mem[f := m.mem[f] - 1]);
    assert (p, i) in PageRefs(m, f);
    forall h: nat
      ensures PageRefs(n, h) == if h == f then PageRefs(m, f) - {(p, i)} else if h == g then {(p, i)}
              else PageRefs(m, h)
    {
      assert h == g ==> PageRefs(m, g) == {};
    }
  }

  /** A loose frame goes back to its pool. */
  lemma FreeKeeps(m: Memory, f: nat)
    requires Core(m) && Loose(m, f)
    ensures FreePhyPage(m, f).Done? && Core(FreePhyPage(m, f).value) && SameUse(m, FreePhyPage(m, f).value)
    ensures FreePhyPage(m, f).value.mem == m.mem[f := 0]
  {
    var n := FreePhyPage(m, f).value;
    SameUseRefs(m, n);
    forall g | 0 <= g < |n.mem|
      ensures if FrameOk(n, g) then Used(n, g) <==> n.mem[g] > 0 else n.mem[g] == 0
    {
      assert if FrameOk(m, g) then Used(m, g) <==> m.mem[g] > 0 else m.mem[g] == 0;
    }
    forall s ensures Held(n, s) {
      assert Held(m, s);
    }
    forall k | k in n.pte ensures EntryOk(n, k) {
      assert EntryOk(m, k) && k in PageRefs(m, m.pte[k].frame);
    }
  }
}
