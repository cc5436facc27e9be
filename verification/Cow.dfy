/** Model of copy-on-write fork: the physical frame pools, the sharer counts in mem[], the page
    tables of the user processes, and the operations of src/kernel/memory.c, src/userprog/fork.c
    and src/userprog/wait_exit.c on them.

    A frame is numbered by its index in mem[], that is (address - 0x200000) / 4096; the kernel
    pool comes first, the user pool starts at kFrames. A user page is numbered by its bit in the
    process's virtual address bitmap, which starts at address 0x8048000. */
module Cow {
  import opened Bytes
  import opened Results
  import opened Bitmaps

  type Pid = nat
  type Page = p: seq<Byte> | |p| == PG_SIZE witness seq(PG_SIZE, _ => 0)

  const PG_SIZE: nat := 4096
  const PHYSICAL_PAGE: nat := 7800         // length of mem[]
  const USER_BASE: nat := 0x8048           // first user page
  const USER_BITS: nat := 753592           // bits in a user address bitmap
  const BITMAP_PAGES: nat := 23            // pages that hold the bitmap
  const BITMAP_PAGES_FREED: nat := 22      // pages given back: allocation rounds up, release rounds down
  const OWN: nat := 25                     // PCB, bitmap pages, page directory

  function ZeroPage(): Page {
    seq(PG_SIZE, _ => 0)
  }

  function NoBits(): (r: seq<bool>)
    ensures |r| == USER_BITS && forall i :: 0 <= i < USER_BITS ==> !r[i]
  {
    seq(USER_BITS, _ => false)
  }

  /** A present page table entry. */
  datatype Pte = Pte(frame: nat, writable: bool)

  /** What one user process has besides its page tables: the bitmap of its virtual pages, and the
      kernel frames taken when it was made: own[0] the PCB, own[1..24] the bitmap, own[24] the
      page directory. */
  datatype Proc = Proc(vbits: seq<bool>, own: seq<nat>)

  /** An exited process keeps its PCB and page directory until its parent waits for it. */
  datatype Corpse = Corpse(pcb: nat, pgdir: nat)

  /** pte holds the present entries of all page tables, by process and page; tables holds the
      present page tables themselves, by process and page directory index. */
  datatype Memory = Memory(
    mem: seq<nat>, kbits: seq<bool>, ubits: seq<bool>, kFrames: nat, data: seq<Page>,
    pte: map<(Pid, nat), Pte>, tables: map<(Pid, nat), nat>, procs: map<Pid, Proc>, dead: map<Pid, Corpse>)

  /** Index in the page directory of user page i. */
  function Pde(i: nat): nat {
    (USER_BASE + i) / 1024
  }

  predicate FrameOk(m: Memory, f: nat) {
    (f < |m.kbits| || m.kFrames <= f < m.kFrames + |m.ubits|) && f < |m.mem|
  }

  // ---------------------------------------------------------------------------------------
  // Frames.

  /** palloc from the kernel pool (kernel) or the user pool. */
  function Palloc(m: Memory, kernel: bool): (r: Outcome<(Memory, nat)>)
    requires Shape(m)
    ensures !r.AssertFailed?
    ensures r.Done? ==> var (n, f) := r.value;
              && FrameOk(m, f) && FrameOk(n, f) && (kernel <==> f < m.kFrames)
              && n == m.(mem := n.mem, kbits := n.kbits, ubits := n.ubits)
              && n.mem == m.mem[f := 1] && !Used(m, f)
              && n == SetBit(m, f, true).(mem := n.mem)
  {
    match FirstClear(if kernel then m.kbits else m.ubits)
    case None => Exhausted
    case Some(b) =>
      var f := if kernel then b else m.kFrames + b;
      Done((SetBit(m, f, true).(mem := m.mem[f := 1]), f))
  }

  /** Sizes as mem_pool_init sets them up: the two pools lie inside mem[], and the kernel pool
      is at most half of it. */
  ghost predicate Shape(m: Memory) {
    && |m.mem| <= PHYSICAL_PAGE && |m.data| == |m.mem|
    && |m.kbits| <= m.kFrames && 2 * m.kFrames <= |m.mem|
    && m.kFrames + |m.ubits| <= |m.mem|
  }

  /** The pool bit of frame f. */
  predicate Used(m: Memory, f: nat)
    requires FrameOk(m, f)
  {
    if f < |m.kbits| then m.kbits[f] else m.ubits[f - m.kFrames]
  }

  function SetBit(m: Memory, f: nat, v: bool): Memory
    requires FrameOk(m, f)
  {
    if f < |m.kbits| then m.(kbits := m.kbits[f := v]) else m.(ubits := m.ubits[f - m.kFrames := v])
  }

  /** n differs from m at most in sharer counts and pool bits. */
  ghost predicate SamePools(m: Memory, n: Memory) {
    && n == m.(mem := n.mem, kbits := n.kbits, ubits := n.ubits)
    && |n.mem| == |m.mem| && |n.kbits| == |m.kbits| && |n.ubits| == |m.ubits|
  }

  /** free_a_phy_page: one reference less; the last one gives the frame back to its pool. */
  function FreePhyPage(m: Memory, f: nat): (r: Outcome<Memory>)
    requires FrameOk(m, f)
    ensures r.Done? ==> SamePools(m, r.value)
  {
    if m.mem[f] > 1 then Done(m.(mem := m.mem[f := m.mem[f] - 1]))
    else if m.mem[f] != 1 then AssertFailed
    else Done(SetBit(m, f, false).(mem := m.mem[f := 0]))
  }

  function FreeAll(m: Memory, fs: seq<nat>): (r: Outcome<Memory>)
    requires forall f <- fs :: FrameOk(m, f)
    ensures r.Done? ==> SamePools(m, r.value)
    decreases |fs|
  {
    if fs == [] then Done(m)
    else
      var n :- FreePhyPage(m, fs[0]);
      assert SamePools(m, n) && fs == [fs[0]] + fs[1..];
      assert forall f <- fs[1..] :: f in fs;
      assert forall f <- fs[1..] :: FrameOk(m, f);
      FreeAll(n, fs[1..])
  }

  /** get_kernel_pages, as far as frames go: n frames of the kernel pool, zeroed. */
  function KernelPages(m: Memory, n: nat): (r: Outcome<(Memory, seq<nat>)>)
    requires Shape(m)
    ensures r.Done? ==> Shape(r.value.0) && |r.value.1| == n
    ensures r.Done? ==> var k := r.value.0; k == m.(mem := k.mem, kbits := k.kbits, data := k.data)
    ensures !r.AssertFailed?
    decreases n
  {
    if n == 0 then Done((m, []))
    else
      var (m1, f) :- Palloc(m, true);
      var (m2, fs) :- KernelPages(m1.(data := m1.data[f := ZeroPage()]), n - 1);
      Done((m2, [f] + fs))
  }

  // ---------------------------------------------------------------------------------------
  // Page tables.

  /** Modify_PTE: entry i of process p points at frame f with the given access right. */
  function ModifyPte(m: Memory, p: Pid, i: nat, f: nat, writable: bool): Outcome<Memory> {
    if (p, Pde(i)) !in m.tables || (p, i) !in m.pte then AssertFailed
    else Done(m.(pte := m.pte[(p, i) := Pte(f, writable)]))
  }

  /** page_table_add: a missing page table is made first, from a zeroed kernel frame. */
  function PageTableAdd(m: Memory, p: Pid, i: nat, f: nat, writable: bool): (r: Outcome<Memory>)
    requires Shape(m)
  {
    if (p, Pde(i)) in m.tables then AddPte(m, p, i, f, writable)
    else
      var m1 :- NewTable(m, p, Pde(i));
      AddPte(m1, p, i, f, writable)
  }

  function NewTable(m: Memory, p: Pid, d: nat): Outcome<Memory>
    requires Shape(m)
  {
    var (m1, t) :- Palloc(m, true);
    Done(m1.(data := m1.data[t := ZeroPage()], tables := m1.tables[(p, d) := t]))
  }

  function AddPte(m: Memory, p: Pid, i: nat, f: nat, writable: bool): Outcome<Memory> {
    if (p, i) in m.pte then AssertFailed
    else Done(m.(pte := m.pte[(p, i) := Pte(f, writable)]))
  }

  /** get_a_page: user page i of process p gets a frame of the user pool. The frame is not
      cleared: the page shows what the frame held before. */
  function GetAPage(m: Memory, p: Pid, i: nat): Outcome<Memory>
    requires Shape(m) && p in m.procs && |m.procs[p].vbits| == USER_BITS && i < USER_BITS
  {
    if i == 0 then AssertFailed
    else
      var s := m.procs[p];
      var m0 := m.(procs := m.procs[p := s.(vbits := s.vbits[i := true])]);
      var (m1, f) :- Palloc(m0, false);
      PageTableAdd(m1, p, i, f, true)
  }

  // ---------------------------------------------------------------------------------------
  // Processes.

  /** The frames every new process takes: PCB, address bitmap, page directory. */
  function OwnPages(m: Memory): (r: Outcome<(Memory, seq<nat>)>)
    requires Shape(m)
    ensures r.Done? ==> Shape(r.value.0) && |r.value.1| == OWN
    ensures r.Done? ==> var k := r.value.0; k == m.(mem := k.mem, kbits := k.kbits, data := k.data)
    ensures !r.AssertFailed?
  {
    var (m1, a) :- KernelPages(m, 1);
    var (m2, b) :- KernelPages(m1, BITMAP_PAGES);
    var (m3, c) :- KernelPages(m2, 1);
    Done((m3, a + b + c))
  }

  /** A new process c with the given address bitmap and no pages. */
  function NewProc(m: Memory, c: Pid, vbits: seq<bool>): (r: Outcome<Memory>)
    requires Shape(m)
    ensures r.Done? ==> Shape(r.value) && c in r.value.procs && r.value.procs[c].vbits == vbits
    ensures r.Done? ==> r.value.procs == m.procs[c := r.value.procs[c]]
    ensures !r.AssertFailed?
  {
    var (m1, own) :- OwnPages(m);
    Done(m1.(procs := m1.procs[c := Proc(vbits, own)]))
  }

  /** process_execute: a new process with an empty address space. */
  function Execute(m: Memory, c: Pid): Outcome<Memory>
    requires Shape(m)
  {
    NewProc(m, c, NoBits())
  }

  /** full_childProcess_pageTable: parent and child share the frame of page i, both read-only.
      The sharer count is one byte wide. */
  function SharePage(m: Memory, c: Pid, p: Pid, i: nat): (r: Outcome<Memory>)
    requires Shape(m)
    ensures r.Done? ==> Shape(r.value)
  {
    if (p, i) !in m.pte || m.pte[(p, i)].frame >= |m.mem| then AssertFailed
    else
      var f := m.pte[(p, i)].frame;
      var m1 :- ModifyPte(m, p, i, f, false);
      var m2 :- PageTableAdd(m1, c, i, f, false);
      Done(m2.(mem := m2.mem[f := (m2.mem[f] + 1) % 256]))
  }

  /** copy_page_tables from bit i of the parent's bitmap on. */
  function SharePages(m: Memory, c: Pid, p: Pid, vbits: seq<bool>, i: nat): Outcome<Memory>
    requires Shape(m) && i <= |vbits|
    decreases |vbits| - i
  {
    if i == |vbits| then Done(m)
    else if !vbits[i] then SharePages(m, c, p, vbits, i + 1)
    else
      var m1 :- SharePage(m, c, p, i);
      SharePages(m1, c, p, vbits, i + 1)
  }

  /** sys_fork: the child c gets a copy of the parent's bitmap and shares all its pages. */
  function Fork(m: Memory, p: Pid, c: Pid): Outcome<Memory>
    requires Shape(m) && p in m.procs
  {
    var m1 :- NewProc(m, c, m.procs[p].vbits);
    SharePages(m1, c, p, m.procs[p].vbits, 0)
  }

  /** One page of copy_body_stack3, the version copy_page_tables replaced: the child gets a
      frame of its own with the same bytes. */
  function CopyPage(m: Memory, c: Pid, p: Pid, i: nat): (r: Outcome<Memory>)
    requires Shape(m)
    ensures r.Done? ==> Shape(r.value)
  {
    if (p, i) !in m.pte || m.pte[(p, i)].frame >= |m.mem| then AssertFailed
    else
      var bytes := m.data[m.pte[(p, i)].frame];
      var (m1, f) :- Palloc(m, false);
      var m2 :- PageTableAdd(m1, c, i, f, true);
      Done(m2.(data := m2.data[f := bytes]))
  }

  function CopyPages(m: Memory, c: Pid, p: Pid, vbits: seq<bool>, i: nat): Outcome<Memory>
    requires Shape(m) && i <= |vbits|
    decreases |vbits| - i
  {
    if i == |vbits| then Done(m)
    else if !vbits[i] then CopyPages(m, c, p, vbits, i + 1)
    else
      var m1 :- CopyPage(m, c, p, i);
      CopyPages(m1, c, p, vbits, i + 1)
  }

  function EagerFork(m: Memory, p: Pid, c: Pid): Outcome<Memory>
    requires Shape(m) && p in m.procs
  {
    var m1 :- NewProc(m, c, m.procs[p].vbits);
    CopyPages(m1, c, p, m.procs[p].vbits, 0)
  }

  /** do_wp_page: the write-protection fault on page i of process p. */
  function DoWpPage(m: Memory, p: Pid, i: nat): (r: Outcome<Memory>)
    requires Shape(m) && (p, i) in m.pte && m.pte[(p, i)].frame < |m.mem|
  {
    var f := m.pte[(p, i)].frame;
    if m.mem[f] == 1 then ModifyPte(m, p, i, f, true) else SplitPage(m, p, i, f)
  }

  /** The branch of do_wp_page for a shared frame f: copy it, through a buffer page, to a new
      frame of the kernel pool. */
  function SplitPage(m: Memory, p: Pid, i: nat, f: nat): (r: Outcome<Memory>)
    requires Shape(m) && f < |m.mem|
  {
    var (m1, b) :- Palloc(m, true);                                      // buf_page
    var (m2, n) :- Palloc(m1.(data := m1.data[b := ZeroPage()]), true);  // new_page
    SplitOnto(m2, p, i, f, b, n)
  }

  /** Copy frame f over buffer b to frame n, move the entry there, drop the buffer. */
  function SplitOnto(m: Memory, p: Pid, i: nat, f: nat, b: nat, n: nat): (r: Outcome<Memory>)
    requires Shape(m) && f < |m.mem| && n < |m.mem| && FrameOk(m, b)
  {
    var m3 :- ModifyPte(m.(data := m.data[b := m.data[f]]), p, i, n, true);
    var m4 := m3.(data := m3.data[n := m3.data[b]], mem := m3.mem[f := (m3.mem[f] + 255) % 256]);
    FreePhyPage(m4, b)
  }

  /** A user-mode store of one byte; a read-only page faults into do_wp_page first. */
  function UserWrite(m: Memory, p: Pid, i: nat, off: nat, b: Byte): Outcome<Memory>
    requires Shape(m) && off < PG_SIZE
    requires (p, i) in m.pte && m.pte[(p, i)].frame < |m.mem|
  {
    var m1 :- if m.pte[(p, i)].writable then Done(m) else DoWpPage(m, p, i);
    if (p, i) !in m1.pte || m1.pte[(p, i)].frame >= |m1.data| then AssertFailed
    else
      var f := m1.pte[(p, i)].frame;
      Done(m1.(data := m1.data[f := m1.data[f][off := b]]))
  }

  // ---------------------------------------------------------------------------------------
  // Exit.

  /** A thing of a process that occupies a frame and is given back at exit. */
  datatype Part = PagePart(i: nat) | TablePart(d: nat) | OwnPart(k: nat)

  predicate Present(m: Memory, p: Pid, part: Part) {
    match part
    case PagePart(i) => (p, i) in m.pte
    case TablePart(d) => (p, d) in m.tables
    case OwnPart(k) => p in m.procs && k < |m.procs[p].own|
  }

  function PartFrame(m: Memory, p: Pid, part: Part): nat
    requires Present(m, p, part)
  {
    match part
    case PagePart(i) => m.pte[(p, i)].frame
    case TablePart(d) => m.tables[(p, d)]
    case OwnPart(k) => m.procs[p].own[k]
  }

  /** The present entries of table d from entry e on, in order. Entry e of table d maps the page
      with address (d * 1024 + e) * 4096; addresses under USER_BASE are never mapped. */
  function EntriesFrom(m: Memory, p: Pid, d: nat, e: nat): (r: seq<Part>)
    requires e <= 1024
    ensures forall x <- r :: Present(m, p, x)
    decreases 1024 - e
  {
    if e == 1024 then []
    else
      var a := d * 1024 + e;
      if a >= USER_BASE && (p, a - USER_BASE) in m.pte
      then [PagePart(a - USER_BASE)] + EntriesFrom(m, p, d, e + 1)
      else EntriesFrom(m, p, d, e + 1)
  }

  /** What the walk over the page directory gives back from directory entry d on. */
  function TablesFrom(m: Memory, p: Pid, d: nat): (r: seq<Part>)
    requires d <= 768
    ensures forall x <- r :: Present(m, p, x)
    decreases 768 - d
  {
    if d == 768 then []
    else if (p, d) in m.tables then EntriesFrom(m, p, d, 0) + [TablePart(d)] + TablesFrom(m, p, d + 1)
    else TablesFrom(m, p, d + 1)
  }

  /** All that release_prog_resource gives back, in order: pages and page tables, then the pages
      of the address bitmap, of which it forgets the last. */
  function ReleaseParts(m: Memory, p: Pid): (r: seq<Part>)
    requires p in m.procs && |m.procs[p].own| == OWN
    ensures forall x <- r :: Present(m, p, x)
  {
    TablesFrom(m, p, 0) + seq(BITMAP_PAGES_FREED, k requires 0 <= k < BITMAP_PAGES_FREED => OwnPart(k + 1))
  }

  function Frames(m: Memory, p: Pid, parts: seq<Part>): (r: seq<nat>)
    requires forall x <- parts :: Present(m, p, x)
    ensures |r| == |parts| && forall k :: 0 <= k < |r| ==> r[k] == PartFrame(m, p, parts[k])
  {
    seq(|parts|, k requires 0 <= k < |parts| => PartFrame(m, p, parts[k]))
  }

  /** sys_exit as far as memory goes: release_prog_resource, after which only PCB and page
      directory of the process are left. */
  function Exit(m: Memory, p: Pid): Outcome<Memory>
    requires p in m.procs && |m.procs[p].own| == OWN
    requires forall f <- Frames(m, p, ReleaseParts(m, p)) :: FrameOk(m, f)
  {
    var own := m.procs[p].own;
    var n :- FreeAll(m, Frames(m, p, ReleaseParts(m, p)));
    Done(n.(pte := map k | k in n.pte && k.0 != p :: n.pte[k],
            tables := map k | k in n.tables && k.0 != p :: n.tables[k],
            procs := n.procs - {p},
            dead := n.dead[p := Corpse(own[0], own[OWN - 1])]))
  }

  /** thread_exit of an exited process, called by the parent's wait. */
  function Reap(m: Memory, p: Pid): Outcome<Memory>
    requires p in m.dead && FrameOk(m, m.dead[p].pgdir) && FrameOk(m, m.dead[p].pcb)
  {
    var n :- FreeAll(m, [m.dead[p].pgdir, m.dead[p].pcb]);
    Done(n.(dead := n.dead - {p}))
  }
}
