/** The operations as the kernel runs them: state changed in place, loops over bitmap bytes and page
    tables. Every method does what the function of the same name in Cow says. */
module CowKernel {
  import opened Bytes
  import opened Results
  import opened Bitmaps
  import opened Cow

  /** A method ends the way its specification says: in the same state, or halted the same way. */
  ghost predicate Follows(r: Outcome<()>, spec: Outcome<Memory>, now: Memory) {
    match spec
    case Done(n) => r.Done? && now == n
    case Exhausted => r.Exhausted?
    case AssertFailed => r.AssertFailed?
  }

  class Kernel {
    const mem: array<nat>       // sharer counts
    const kernelPool: Bitmap
    const userPool: Bitmap
    const kFrames: nat
    const data: array<Page>     // contents of the frames
    var pte: map<(Pid, nat), Pte>
    var tables: map<(Pid, nat), nat>
    var procs: map<Pid, Proc>
    var dead: map<Pid, Corpse>

    constructor (mem: array<nat>, kernelPool: Bitmap, userPool: Bitmap, kFrames: nat, data: array<Page>)
      ensures this.mem == mem && this.kernelPool == kernelPool && this.userPool == userPool
      ensures this.kFrames == kFrames && this.data == data
      ensures pte == map[] && tables == map[] && procs == map[] && dead == map[]
    {
      this.mem, this.kernelPool, this.userPool, this.kFrames, this.data := mem, kernelPool, userPool, kFrames, data;
      pte, tables, procs, dead := map[], map[], map[], map[];
    }

    ghost function Repr(): set<object> {
      {this, mem, data, kernelPool, kernelPool.bits, userPool, userPool.bits}
    }

    ghost predicate Valid()
      reads Repr()
    {
      && kernelPool.Valid() && userPool.Valid() && kernelPool != userPool && kernelPool.bits != userPool.bits
      && mem as object != data && mem as object != kernelPool.bits && mem as object != userPool.bits
      && data as object != kernelPool.bits && data as object != userPool.bits
      && Shape(Model())
    }

    ghost function Model(): Memory
      requires kernelPool.Valid() && userPool.Valid()
      reads Repr()
    {
      Memory(mem[..], kernelPool.Contents(), userPool.Contents(), kFrames, data[..], pte, tables, procs, dead)
    }

    method Palloc(kernel: bool) returns (r: Outcome<nat>)
      requires Valid()
      modifies mem, kernelPool.bits, userPool.bits
      ensures Valid()
      ensures match Cow.Palloc(old(Model()), kernel)
              case Done((n, f)) => r == Done(f) && Model() == n
              case _ => r.Exhausted?
    {
      hide Bitmap.Contents, Bitmap.Memory, Bitmap.Window, LeastRun, ClearRun;
      ghost var m := Model();
      var pool := if kernel then kernelPool else userPool;
      var s := pool.Scan(1);
      match s {
        case Halts =>
          assert FirstClear(pool.Contents()).None?;
          return Exhausted;
        case Scanned(b) =>
          FirstIsLeast(pool.Contents(), b);
          pool.Set(b, true);
          var f := if kernel then b else kFrames + b;
          mem[f] := 1;
          assert mem[..] == m.mem[f := 1];
          return Done(f);
      }
    }

    method FreePhyPage(f: nat) returns (r: Outcome<()>)
      requires Valid() && FrameOk(Model(), f)
      modifies mem, kernelPool.bits, userPool.bits
      ensures r.Done? ==> Valid()
      ensures Follows(r, Cow.FreePhyPage(old(Model()), f), Model())
    {
      ghost var m := Model();
      if mem[f] > 1 {
        mem[f] := mem[f] - 1;
        assert mem[..] == m.mem[f := m.mem[f] - 1];
        return Done(());
      }
      if mem[f] != 1 {
        return AssertFailed;
      }
      if f >= kFrames {
        userPool.Set(f - kFrames, false);
      } else {
        kernelPool.Set(f, false);
      }
      mem[f] := 0;
      assert mem[..] == m.mem[f := 0];
      return Done(());
    }

    method ModifyPte(p: Pid, i: nat, f: nat, writable: bool) returns (r: Outcome<()>)
      requires Valid()
      modifies `pte
      ensures Valid()
      ensures Follows(r, Cow.ModifyPte(old(Model()), p, i, f, writable), Model())
    {
      if (p, Pde(i)) in tables {
        if (p, i) !in pte {
          return AssertFailed;
        }
        pte := pte[(p, i) := Pte(f, writable)];
        return Done(());
      } else {
        return AssertFailed;
      }
    }

    method PageTableAdd(p: Pid, i: nat, f: nat, writable: bool) returns (r: Outcome<()>)
      requires Valid()
      modifies this, mem, data, kernelPool.bits, userPool.bits
      ensures r.Done? ==> Valid()
      ensures Follows(r, Cow.PageTableAdd(old(Model()), p, i, f, writable), Model())
    {
      ghost var m := Model();
      if (p, Pde(i)) !in tables {
        var t :- Palloc(true);
        tables := tables[(p, Pde(i)) := t];
        data[t] := ZeroPage();
        assert Done(Model()) == NewTable(m, p, Pde(i));
      }
      if (p, i) in pte {
        return AssertFailed;
      }
      pte := pte[(p, i) := Pte(f, writable)];
      return Done(());
    }

    /** get_a_page. */
    method GetAPage(p: Pid, i: nat) returns (r: Outcome<()>)
      requires Valid() && p in procs && |procs[p].vbits| == USER_BITS && i < USER_BITS
      modifies this, mem, data, kernelPool.bits, userPool.bits
      ensures r.Done? ==> Valid()
      ensures Follows(r, Cow.GetAPage(old(Model()), p, i), Model())
    {
      if i == 0 {
        return AssertFailed;
      }
      procs := procs[p := procs[p].(vbits := procs[p].vbits[i := true])];
      var f :- Palloc(false);
      r := PageTableAdd(p, i, f, true);
    }

    /** get_kernel_pages. */
    method GetKernelPages(n: nat) returns (r: Outcome<seq<nat>>)
      requires Valid()
      modifies mem, data, kernelPool.bits, userPool.bits
      ensures r.Done? ==> Valid()
      ensures match KernelPages(old(Model()), n)
              case Done((k, fs)) => r == Done(fs) && Model() == k
              case _ => r.Exhausted?
    {
      hide Cow.Palloc, KernelPages, FirstClear, Used, SetBit, FrameOk;
      ghost var m := Model();
      var taken: seq<nat> := [];
      TakingStarts(m, n);
      while |taken| < n
        invariant |taken| <= n && Valid() && unchanged(this) && Taking(m, n, Model(), taken)
        decreases n - |taken|
      {
        ghost var m1 := Model();
        TakingFails(m, n, m1, taken);
        var f :- Palloc(true);
        ghost var m2 := Model();
        data[f] := ZeroPage();
        assert Model() == m2.(data := m2.data[f := ZeroPage()]);
        TakingStep(m, n, m1, taken);
        taken := taken + [f];
      }
      TakingEnds(m, n, Model(), taken);
      return Done(taken);
    }

    /** The frames of a new process and its entry in the process list. */
    method CreateProcess(c: Pid, vbits: seq<bool>) returns (r: Outcome<()>)
      requires Valid()
      modifies `procs, mem, data, kernelPool.bits, userPool.bits
      ensures r.Done? ==> Valid()
      ensures Follows(r, NewProc(old(Model()), c, vbits), Model())
    {
      hide KernelPages;
      var pcb :- GetKernelPages(1);
      var bitmap :- GetKernelPages(BITMAP_PAGES);
      var pgdir :- GetKernelPages(1);
      procs := procs[c := Proc(vbits, pcb + bitmap + pgdir)];
      return Done(());
    }

    /** full_childProcess_pageTable. */
    method FullChildProcessPageTable(c: Pid, p: Pid, i: nat) returns (r: Outcome<()>)
      requires Valid()
      modifies this, mem, data, kernelPool.bits, userPool.bits
      ensures r.Done? ==> Valid()
      ensures Follows(r, SharePage(old(Model()), c, p, i), Model())
    {
      if (p, i) !in pte || pte[(p, i)].frame >= mem.Length {
        return AssertFailed;
      }
      var f := pte[(p, i)].frame;
      var _ :- ModifyPte(p, i, f, false);
      var _ :- PageTableAdd(c, i, f, false);
      ghost var m2 := Model();
      mem[f] := (mem[f] + 1) % 256;
      assert mem[..] == m2.mem[f := (m2.mem[f] + 1) % 256];
      return Done(());
    }

    /** copy_page_tables: byte by byte over the parent's bitmap, bit by bit in a byte that is not 0. */
    method CopyPageTables(c: Pid, p: Pid) returns (r: Outcome<()>)
      requires Valid() && p in procs && |procs[p].vbits| % 8 == 0
      modifies this, mem, data, kernelPool.bits, userPool.bits
      ensures r.Done? ==> Valid()
      ensures Follows(r, SharePages(old(Model()), c, p, old(procs[p].vbits), 0), Model())
    {
      hide SharePage, Shape;
      var vbits := procs[p].vbits;
      ghost var spec := SharePages(Model(), c, p, vbits, 0);
      var idxByte := 0;
      while idxByte < |vbits| / 8
        invariant 0 <= idxByte <= |vbits| / 8 && Valid()
        invariant spec == SharePages(Model(), c, p, vbits, 8 * idxByte)
      {
        if true in vbits[8 * idxByte..8 * idxByte + 8] {
          var idxBit := 0;
          while idxBit < 8
            invariant 0 <= idxBit <= 8 && Valid()
            invariant spec == SharePages(Model(), c, p, vbits, 8 * idxByte + idxBit)
          {
            if vbits[8 * idxByte + idxBit] {
              var _ :- FullChildProcessPageTable(c, p, 8 * idxByte + idxBit);
            }
            idxBit := idxBit + 1;
          }
        } else {
          forall k | 8 * idxByte <= k < 8 * idxByte + 8 ensures !vbits[k] {
            assert vbits[8 * idxByte..8 * idxByte + 8][k - 8 * idxByte] == vbits[k];
          }
          SkipClear(Model(), c, p, vbits, 8 * idxByte, 8);
        }
        idxByte := idxByte + 1;
      }
      return Done(());
    }

    /** sys_fork, from the PCB page to the shared pages. */
    method SysFork(p: Pid, c: Pid) returns (r: Outcome<()>)
      requires Valid() && p in procs && |procs[p].vbits| == USER_BITS && p != c
      modifies this, mem, data, kernelPool.bits, userPool.bits
      ensures r.Done? ==> Valid()
      ensures Follows(r, Cow.Fork(old(Model()), p, c), Model())
    {
      hide NewProc, SharePages;
      var _ :- CreateProcess(c, procs[p].vbits);
      r := CopyPageTables(c, p);
    }

    /** do_wp_page. */
    method DoWpPage(p: Pid, i: nat) returns (r: Outcome<()>)
      requires Valid() && (p, i) in pte && pte[(p, i)].frame < mem.Length
      modifies this, mem, data, kernelPool.bits, userPool.bits
      ensures r.Done? ==> Valid()
      ensures Follows(r, Cow.DoWpPage(old(Model()), p, i), Model())
    {
      var f := pte[(p, i)].frame;
      if mem[f] == 1 {
        r := ModifyPte(p, i, f, true);
        return;
      }
      r := SplitPage(p, i, f);
    }

    /** The branch of do_wp_page for a shared frame. */
    method SplitPage(p: Pid, i: nat, f: nat) returns (r: Outcome<()>)
      requires Valid() && f < mem.Length
      modifies this, mem, data, kernelPool.bits, userPool.bits
      ensures r.Done? ==> Valid()
      ensures Follows(r, Cow.SplitPage(old(Model()), p, i, f), Model())
    {
      hide Cow.Palloc, Cow.FreePhyPage, FirstClear, Used, SetBit;
      var bufPage :- Palloc(true);
      ghost var m1 := Model();
      data[bufPage] := ZeroPage();
      assert Model() == m1.(data := m1.data[bufPage := ZeroPage()]);
      var newPage :- Palloc(true);
      r := SplitOnto(p, i, f, bufPage, newPage);
    }

    method SplitOnto(p: Pid, i: nat, f: nat, bufPage: nat, newPage: nat) returns (r: Outcome<()>)
      requires Valid() && f < mem.Length && newPage < mem.Length && FrameOk(Model(), bufPage)
      modifies this, mem, data, kernelPool.bits, userPool.bits
      ensures r.Done? ==> Valid()
      ensures Follows(r, Cow.SplitOnto(old(Model()), p, i, f, bufPage, newPage), Model())
    {
      hide Cow.FreePhyPage, Used, SetBit;
      ghost var m2 := Model();
      data[bufPage] := data[f];
      assert Model() == m2.(data := m2.data[bufPage := m2.data[f]]);
      var _ :- ModifyPte(p, i, newPage, true);
      ghost var m3 := Model();
      data[newPage] := data[bufPage];
      mem[f] := (mem[f] + 255) % 256;
      assert Model() == m3.(data := m3.data[newPage := m3.data[bufPage]], mem := m3.mem[f := (m3.mem[f] + 255) % 256]);
      r := FreePhyPage(bufPage);
    }

    /** One round of the walk of release_prog_resource: the present entries of page table d, then
        the table itself. m is the memory at the start of the walk, later what comes after. */
    method ReleaseTable(p: Pid, d: nat, ghost m: Memory, ghost later: seq<Part>, ghost spec: Outcome<Memory>)
      returns (r: Outcome<()>)
      requires Valid() && d < 768 && (p, d) in tables
      requires Rest(m, p, EntriesFrom(m, p, d, 0) + ([TablePart(d)] + later), spec, Model())
      requires m.pte == pte && m.tables == tables
      modifies mem, kernelPool.bits, userPool.bits
      ensures r.Done? ==> Valid() && Rest(m, p, later, spec, Model())
      ensures r.Exhausted? ==> spec.Exhausted?
      ensures r.AssertFailed? ==> spec.AssertFailed?
    {
      hide Rest, Cow.FreePhyPage, EntriesFrom;
      ghost var rest := [TablePart(d)] + later;
      var e := 0;
      while e < 1024
        invariant 0 <= e <= 1024 && Valid()
        invariant Rest(m, p, EntriesFrom(m, p, d, e) + rest, spec, Model())
      {
        var a := d * 1024 + e;
        NextEntry(m, p, d, e, rest);
        if a >= USER_BASE && (p, a - USER_BASE) in pte {
          ghost var more := EntriesFrom(m, p, d, e + 1) + rest;
          RestStep(m, p, PagePart(a - USER_BASE), more, spec, Model());
          var _ :- FreePhyPage(pte[(p, a - USER_BASE)].frame);
        }
        e := e + 1;
      }
      NoEntries(m, p, d, rest);
      RestStep(m, p, TablePart(d), later, spec, Model());
      var _ :- FreePhyPage(tables[(p, d)]);
      return Done(());
    }

    /** release_prog_resource: all present entries of all present page tables, each table after
        its entries, and the pages of the address bitmap but the last. */
    method ReleaseProgResource(p: Pid) returns (r: Outcome<()>)
      requires Valid() && p in procs && |procs[p].own| == OWN
      requires forall f <- Frames(Model(), p, ReleaseParts(Model(), p)) :: FrameOk(Model(), f)
      modifies mem, kernelPool.bits, userPool.bits
      ensures r.Done? ==> Valid()
      ensures Follows(r, FreeAll(old(Model()), Frames(old(Model()), p, ReleaseParts(old(Model()), p))), Model())
    {
      hide Rest, FreeAll, Frames, Cow.FreePhyPage;
      ghost var m := Model();
      ghost var all := ReleaseParts(m, p);
      ghost var spec := FreeAll(m, Frames(m, p, all));
      ghost var tail := seq(BITMAP_PAGES_FREED, k requires 0 <= k < BITMAP_PAGES_FREED => OwnPart(k + 1));
      RestStart(m, p);
      var pdeIdx := 0;
      while pdeIdx < 768
        invariant 0 <= pdeIdx <= 768 && Valid()
        invariant Rest(m, p, TablesFrom(m, p, pdeIdx) + tail, spec, Model())
      {
        if (p, pdeIdx) in tables {
          ghost var later := TablesFrom(m, p, pdeIdx + 1) + tail;
          assert TablesFrom(m, p, pdeIdx) + tail == EntriesFrom(m, p, pdeIdx, 0) + ([TablePart(pdeIdx)] + later);
          var _ :- ReleaseTable(p, pdeIdx, m, later, spec);
        }
        pdeIdx := pdeIdx + 1;
      }
      assert TablesFrom(m, p, 768) + tail == tail;
      var _ :- ReleaseBitmap(p, m, tail, spec);
      RestEnd(m, p, spec, Model());
      return Done(());
    }

    /** The pages of the address bitmap but the last. */
    method ReleaseBitmap(p: Pid, ghost m: Memory, ghost tail: seq<Part>, ghost spec: Outcome<Memory>)
      returns (r: Outcome<()>)
      requires Valid() && p in procs && |procs[p].own| == OWN && m.procs == procs
      requires tail == seq(BITMAP_PAGES_FREED, k requires 0 <= k < BITMAP_PAGES_FREED => OwnPart(k + 1))
      requires Rest(m, p, tail, spec, Model())
      modifies mem, kernelPool.bits, userPool.bits
      ensures r.Done? ==> Valid() && Rest(m, p, [], spec, Model())
      ensures r.Exhausted? ==> spec.Exhausted?
      ensures r.AssertFailed? ==> spec.AssertFailed?
    {
      hide Rest, Cow.FreePhyPage;
      var k := 0;
      while k < BITMAP_PAGES_FREED
        invariant 0 <= k <= BITMAP_PAGES_FREED && Valid()
        invariant Rest(m, p, tail[k..], spec, Model())
      {
        assert tail[k..] == [OwnPart(k + 1)] + tail[k + 1..];
        RestStep(m, p, OwnPart(k + 1), tail[k + 1..], spec, Model());
        var _ :- FreePhyPage(procs[p].own[k + 1]);
        k := k + 1;
      }
      assert tail[k..] == [];
      return Done(());
    }

    /** sys_exit as far as memory goes. */
    method SysExit(p: Pid) returns (r: Outcome<()>)
      requires Valid() && p in procs && |procs[p].own| == OWN
      requires forall f <- Frames(Model(), p, ReleaseParts(Model(), p)) :: FrameOk(Model(), f)
      modifies this, mem, kernelPool.bits, userPool.bits
      ensures r.Done? ==> Valid()
      ensures Follows(r, Cow.Exit(old(Model()), p), Model())
    {
      hide FreeAll, Frames, ReleaseParts, FrameOk;
      var own := procs[p].own;
      var _ :- ReleaseProgResource(p);
      pte := map k | k in pte && k.0 != p :: pte[k];
      tables := map k | k in tables && k.0 != p :: tables[k];
      procs := procs - {p};
      dead := dead[p := Corpse(own[0], own[OWN - 1])];
      return Done(());
    }

    /** thread_exit of an exited process. */
    method ThreadExit(p: Pid) returns (r: Outcome<()>)
      requires Valid() && p in dead && FrameOk(Model(), dead[p].pgdir) && FrameOk(Model(), dead[p].pcb)
      modifies this, mem, kernelPool.bits, userPool.bits
      ensures r.Done? ==> Valid()
      ensures Follows(r, Cow.Reap(old(Model()), p), Model())
    {
      hide Cow.FreePhyPage, FreeAll, Used, SetBit;
      FreeTwo(Model(), dead[p].pgdir, dead[p].pcb);
      var _ :- FreePhyPage(dead[p].pgdir);
      var _ :- FreePhyPage(dead[p].pcb);
      dead := dead - {p};
      return Done(());
    }

    /** A user-mode store. */
    method UserWrite(p: Pid, i: nat, off: nat, b: Byte) returns (r: Outcome<()>)
      requires Valid() && (p, i) in pte && pte[(p, i)].frame < mem.Length && off < PG_SIZE
      modifies this, mem, data, kernelPool.bits, userPool.bits
      ensures r.Done? ==> Valid()
      ensures Follows(r, Cow.UserWrite(old(Model()), p, i, off, b), Model())
    {
      hide Cow.DoWpPage;
      if !pte[(p, i)].writable {
        var _ :- DoWpPage(p, i);
      }
      if (p, i) !in pte || pte[(p, i)].frame >= data.Length {
        return AssertFailed;
      }
      var f := pte[(p, i)].frame;
      ghost var m1 := Model();
      data[f] := data[f][off := b];
      assert data[..] == m1.data[f := m1.data[f][off := b]];
      return Done(());
    }
  }

  lemma NextEntry(m: Memory, p: Pid, d: nat, e: nat, rest: seq<Part>)
    requires e < 1024
    ensures var a := d * 1024 + e;
            EntriesFrom(m, p, d, e) + rest ==
              if a >= USER_BASE
                && (p, a - USER_BASE) in m.pte then [PagePart(a - USER_BASE)] + (EntriesFrom(m, p, d, e + 1) + rest)
              else EntriesFrom(m, p, d, e + 1) + rest
  {
  }

  lemma NoEntries(m: Memory, p: Pid, d: nat, rest: seq<Part>)
    ensures EntriesFrom(m, p, d, 1024) + rest == rest
  {
  }

  /** Of the n frames asked for in m, taken are there; the others are to come from now. */
  ghost predicate Taking(m: Memory, n: nat, now: Memory, taken: seq<nat>) {
    && Shape(m) && Shape(now) && |taken| <= n
    && KernelPages(m, n) == match KernelPages(now, n - |taken|)
                            case Done((k, fs)) => Done((k, taken + fs))
                            case _ => Exhausted
  }

  lemma TakingStarts(m: Memory, n: nat)
    requires Shape(m)
    ensures Taking(m, n, m, [])
  {
    hide KernelPages, Shape;
    assert KernelPages(m, n).Done? ==> [] + KernelPages(m, n).value.1 == KernelPages(m, n).value.1;
  }

  lemma TakingFails(m: Memory, n: nat, now: Memory, taken: seq<nat>)
    requires Taking(m, n, now, taken) && |taken| < n
    ensures !Cow.Palloc(now, true).Done? ==> KernelPages(m, n) == Exhausted
  {
    hide Cow.Palloc, Shape;
  }

  lemma TakingStep(m: Memory, n: nat, now: Memory, taken: seq<nat>)
    requires Taking(m, n, now, taken) && |taken| < n && Cow.Palloc(now, true).Done?
    ensures var (k, f) := Cow.Palloc(now, true).value;
            f < |k.data| && Taking(m, n, k.(data := k.data[f := ZeroPage()]), taken + [f])
  {
    hide Cow.Palloc, ZeroPage;
    var (k, f) := Cow.Palloc(now, true).value;
    var rest := KernelPages(k.(data := k.data[f := ZeroPage()]), n - |taken| - 1);
    assert rest.Done? ==> taken + ([f] + rest.value.1) == taken + [f] + rest.value.1;
  }

  lemma TakingEnds(m: Memory, n: nat, now: Memory, taken: seq<nat>)
    requires Taking(m, n, now, taken) && |taken| == n
    ensures KernelPages(m, n) == Done((now, taken))
  {
    hide Shape;
    assert taken + [] == taken;
  }

  /** Bits that are clear are passed over. */
  lemma {:induction false} SkipClear(m: Memory, c: Pid, p: Pid, vbits: seq<bool>, i: nat, n: nat)
    requires Shape(m) && i + n <= |vbits| && forall k :: i <= k < i + n ==> !vbits[k]
    ensures SharePages(m, c, p, vbits, i) == SharePages(m, c, p, vbits, i + n)
    decreases n
  {
    if n > 0 {
      SkipClear(m, c, p, vbits, i + 1, n - 1);
    }
  }

  /** In state now, what is left to give back is the frames (as of m) of parts. */
  ghost predicate Rest(m: Memory, p: Pid, parts: seq<Part>, spec: Outcome<Memory>, now: Memory) {
    && SamePools(m, now)
    && (forall x <- parts :: Present(m, p, x))
    && (forall f <- Frames(m, p, parts) :: FrameOk(m, f))
    && (forall f <- Frames(m, p, parts) :: FrameOk(now, f))
    && spec == FreeAll(now, Frames(m, p, parts))
  }

  lemma RestStart(m: Memory, p: Pid)
    requires Shape(m) && p in m.procs && |m.procs[p].own| == OWN
    requires forall f <- Frames(m, p, ReleaseParts(m, p)) :: FrameOk(m, f)
    ensures Rest(m, p, ReleaseParts(m, p), FreeAll(m, Frames(m, p, ReleaseParts(m, p))), m)
  {
  }

  lemma RestEnd(m: Memory, p: Pid, spec: Outcome<Memory>, now: Memory)
    requires Rest(m, p, [], spec, now)
    ensures spec == Done(now)
  {
  }

  lemma RestStep(m: Memory, p: Pid, x: Part, more: seq<Part>, spec: Outcome<Memory>, now: Memory)
    requires Rest(m, p, [x] + more, spec, now)
    ensures Present(m, p, x) && FrameOk(now, PartFrame(m, p, x))
    ensures match FreePhyPage(now, PartFrame(m, p, x))
            case Done(n) => Rest(m, p, more, spec, n)
            case Exhausted => spec.Exhausted?
            case AssertFailed => spec.AssertFailed?
  {
    var fs := Frames(m, p, [x] + more);
    assert ([x] + more)[0] == x && x in [x] + more;
    assert fs[0] == PartFrame(m, p, x) && fs[0] in fs;
    forall y <- more ensures Present(m, p, y) {
      assert y in [x] + more;
    }
    assert fs[1..] == Frames(m, p, more) by {
      forall k | 0 <= k < |more| ensures fs[1..][k] == Frames(m, p, more)[k] {
        assert ([x] + more)[k + 1] == more[k];
      }
    }
    forall f <- Frames(m, p, more) ensures f in fs {
    }
  }

  /** Two frames given back. */
  lemma FreeTwo(m: Memory, f: nat, g: nat)
    requires FrameOk(m, f) && FrameOk(m, g)
    ensures FreeAll(m, [f, g]) == match Cow.FreePhyPage(m, f) case Done(n) => Cow.FreePhyPage(n, g) case x => x
  {
    hide Cow.FreePhyPage;
    assert [f, g][1..] == [g] && [g][1..] == [];
    if Cow.FreePhyPage(m, f).Done? {
      FreeOne(Cow.FreePhyPage(m, f).value, g);
    }
  }

  lemma FreeOne(m: Memory, g: nat)
    requires FrameOk(m, g)
    ensures FreeAll(m, [g]) == Cow.FreePhyPage(m, g)
  {
    hide Cow.FreePhyPage, FrameOk;
    assert [g][1..] == [];
  }
}
