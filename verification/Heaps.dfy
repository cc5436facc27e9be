/** sys_malloc and sys_free of the kernel heap (src/kernel/memory.c), on the page allocator, and what
    every run of them keeps. */
module Heaps {
  import opened Results
  import opened Sequences
  import opened Bitmaps
  import opened PageSpaces
  import opened Sets
  import opened Arenas
  import opened ArenaSteps

  /** The smallest class that is large enough. */
  ghost predicate ClassOf(d: nat, size: nat) {
    d < DESC_CNT && size <= Size(d) && forall e :: 0 <= e < d ==> Size(e) < size
  }

  class Heap {
    const pages: PageSpace
    const poolSize: nat             // bytes in the frame pool
    var arenas: map<nat, Arena>     // the headers, by page
    var lists: seq<seq<nat>>        // free_list of each descriptor
    ghost var live: map<nat, nat>   // what callers hold: address and size they asked for

    /** block_desc_init over an untouched page allocator. */
    constructor (pages: PageSpace, poolSize: nat)
      requires pages.Valid() && pages.pte == map[]
      ensures this.pages == pages && this.poolSize == poolSize
      ensures Valid() && live == map[]
    {
      this.pages, this.poolSize := pages, poolSize;
      arenas, lists, live := map[], [[], [], [], [], [], [], []], map[];
      new;
      assert PagesOk(arenas, pages.pte.Keys) by {
        assert forall i: nat :: !Owned(arenas, i);
      }
      assert ListsOk(arenas, lists, live) by {
        forall d | 0 <= d < DESC_CNT ensures ListOk(arenas, lists[d], live, d) {
          assert lists[d] == [];
        }
      }
    }

    ghost predicate Valid()
      reads this, pages, pages.vaddrBitmap.bits, pages.pool.bits
    {
      pages.Valid() && HeapOk(arenas, lists, live, pages.pte.Keys, {})
    }

    /** The loop that looks for the class. */
    method FindDesc(size: nat) returns (d: nat)
      requires size <= LARGEST
      ensures ClassOf(d, size)
    {
      d := 0;
      while d < DESC_CNT && size > Size(d)
        invariant 0 <= d < DESC_CNT && forall e :: 0 <= e < d ==> Size(e) < size
      {
        d := d + 1;
      }
    }

    /** The loop that cuts a new arena into blocks; it asserts that none is in the list yet. */
    method LinkBlocks(p: nat, d: nat) returns (ok: bool)
      requires d < DESC_CNT && |lists| == DESC_CNT && lists[d] == []
      modifies `lists
      ensures ok && lists == old(lists)[d := Blocks(p, d, BlocksPerArena(d))]
    {
      hide Size;
      ghost var was := lists;
      var k := 0;
      while k < BlocksPerArena(d)
        invariant 0 <= k <= BlocksPerArena(d) && |lists| == DESC_CNT && lists == was[d := Blocks(p, d, k)]
      {
        NotLinkedYet(p, d, k);
        if BlockAt(p, d, k) in lists[d] {
          return false;
        }
        lists := lists[d := lists[d] + [BlockAt(p, d, k)]];
        k := k + 1;
      }
      return true;
    }

    /** The loop that takes all blocks of an arena off the free list; it asserts that each is there. */
    method UnlinkBlocks(p: nat, d: nat) returns (ok: bool)
      requires d < DESC_CNT && |lists| == DESC_CNT && NoRepeat(lists[d])
      requires forall k :: 0 <= k < BlocksPerArena(d) ==> BlockAt(p, d, k) in lists[d]
      requires forall b :: b in lists[d] ==> OnGrid(b, d)
      modifies `lists
      ensures ok && |lists| == DESC_CNT && lists == old(lists)[d := lists[d]] && NoRepeat(lists[d])
      ensures forall b :: b in lists[d] <==> b in old(lists)[d] && PageOf(b) != p
    {
      hide Size, OnGrid, PageOf, NoRepeat;
      ghost var was := lists;
      var k := 0;
      while k < BlocksPerArena(d)
        invariant 0 <= k <= BlocksPerArena(d) && |lists| == DESC_CNT && lists == was[d := lists[d]]
                  && NoRepeat(lists[d])
        invariant forall b :: b in lists[d] <==> b in was[d] && b !in Blocks(p, d, k)
      {
        NotLinkedYet(p, d, k);
        if BlockAt(p, d, k) !in lists[d] {
          return false;
        }
        WithoutKeeps(lists[d], BlockAt(p, d, k));
        lists := lists[d := Without(lists[d], BlockAt(p, d, k))];
        k := k + 1;
      }
      BlocksOnGrid(p, d);
      return true;
    }

    /** The small half of sys_malloc, first step: a list that is empty gets a new arena. False if there
        is no page. */
    method FillList(d: nat) returns (r: Outcome<Option<nat>>)
      requires Valid() && d < DESC_CNT && lists[d] == []
      modifies this, pages, pages.vaddrBitmap.bits, pages.pool.bits
      ensures !r.AssertFailed?
      ensures r.Exhausted? <==> old(pages.OutOfMemory(1))
      ensures r.Exhausted? ==> MemoryFull()
      ensures r == Done(None) ==> Valid() && Same() && old(NoRun(1))
      ensures r.Done? && r.value.Some? ==>
                && pages.Valid() && HeapOk(arenas, lists, live, pages.pte.Keys, {r.value.value})
                && lists[d] != [] && PageOf(lists[d][0]) == r.value.value && live == old(live) && !old(NoRun(1))
                && TookRun(r.value.value, 1) && lists == old(lists)[d := Blocks(r.value.value, d, BlocksPerArena(d))]
    {
      hide PageSpace.Valid, PageSpace.OutOfMemory, PageSpace.MapFull, ClearBits, HeapOk, Range, Blocks, PageOf, OnGrid,
           Size, BlocksPerArena;
      ghost var keys := pages.pte.Keys;
      SevenOk(arenas, lists, live, keys, {});
      var got := pages.MallocPage(1);
      if got.Exhausted? {
        return Exhausted;
      }
      if got.value.None? {
        return Done(None);
      }
      var p := got.value.value;
      AddSmall(arenas, lists, live, keys, p, d);
      arenas := arenas[p := Small(d, BlocksPerArena(d))];
      var ok := LinkBlocks(p, d);
      if !ok {
        return AssertFailed;
      }
      FirstBlock(p, d);
      return Done(Some(p));
    }

    /** The tables are as at the start of the call. */
    twostate predicate Same()
      reads this, pages
    {
      arenas == old(arenas) && lists == old(lists) && live == old(live) && pages.pte == old(pages.pte)
    }

    /** Either all virtual pages or all frames are taken. */
    ghost predicate MemoryFull()
      reads this, pages, pages.vaddrBitmap.bits, pages.pool.bits
    {
      pages.Wired() && (pages.MapFull() || ClearBits(pages.pool.Contents()) == 0)
    }

    /** The first run of k virtual pages that were free, from p on, is the heap's. */
    twostate predicate TookRun(p: nat, k: nat)
      requires pages.vaddrBitmap.Valid()
      reads this, pages, pages.vaddrBitmap.bits
    {
      && LeastRun(old(pages.vaddrBitmap.Window()), p, k) && old(pages.pte.Keys) !! Range(p, k)
      && pages.pte.Keys == old(pages.pte.Keys) + Range(p, k)
    }

    /** A new page for class d: block 0 is the caller's, the others are the free list. */
    twostate predicate NewArena(d: nat, b: nat)
      requires pages.vaddrBitmap.Valid()
      reads this, pages, pages.vaddrBitmap.bits
    {
      exists p: nat ::
        && TookRun(p, 1) && b == p * PG_SIZE + HEADER && d < DESC_CNT && d < |old(lists)|
        && lists == old(lists)[d := Blocks(p, d, BlocksPerArena(d))[1..]]
    }

    /** k new pages, with the block behind the header of the first. */
    twostate predicate NewLarge(b: nat, k: nat)
      requires pages.vaddrBitmap.Valid()
      reads this, pages, pages.vaddrBitmap.bits
    {
      exists p: nat :: TookRun(p, k) && b == p * PG_SIZE + HEADER && lists == old(lists)
    }

    /** No run of free virtual pages of that length. */
    ghost predicate NoRun(cnt: nat)
      requires pages.vaddrBitmap.Valid()
      reads this, pages, pages.vaddrBitmap.bits
    {
      forall s :: !ClearRun(pages.vaddrBitmap.Window(), s, cnt)
    }

    /** Second step: the first block of the list goes to the caller. */
    method TakeFirst(d: nat, size: nat, ghost idle: set<nat>) returns (b: nat)
      requires pages.Valid() && HeapOk(arenas, lists, live, pages.pte.Keys, idle)
      requires d < DESC_CNT && |lists| == DESC_CNT && lists[d] != [] && 1 <= size <= Size(d)
               && idle <= {PageOf(lists[d][0])}
      modifies this
      ensures Valid() && b == old(lists[d][0]) && b !in old(live) && live == old(live)[b := size]
      ensures lists == old(lists)[d := old(lists)[d][1..]]
    {
      hide PageSpace.Valid, HeapOk, PageOf, OnGrid, Size;
      TakeBlock(arenas, lists, live, pages.pte.Keys, idle, d, size);
      b := lists[d][0];
      lists := lists[d := lists[d][1..]];
      arenas := arenas[PageOf(b) := arenas[PageOf(b)].(freeCnt := arenas[PageOf(b)].freeCnt - 1)];
      live := live[b := size];
    }

    method MallocSmall(size: nat) returns (r: Outcome<Option<nat>>)
      requires Valid() && 1 <= size <= LARGEST
      modifies this, pages, pages.vaddrBitmap.bits, pages.pool.bits
      ensures !r.AssertFailed? && (r.Done? ==> Valid()) && (r.Exhausted? ==> MemoryFull())
      ensures forall d: nat :: ClassOf(d, size) && d < |old(lists)| ==>
              (r.Exhausted? <==> old(lists)[d] == [] && old(pages.OutOfMemory(1)))
      ensures r == Done(None) ==> Same() && old(NoRun(1))
      ensures r.Done? && r.value.Some? ==> r.value.value !in old(live) && live == old(live)[r.value.value := size]
      ensures forall d: nat :: ClassOf(d, size) && d < |old(lists)| && old(lists)[d] != [] ==>
              r == Done(Some(old(lists)[d][0]))
      ensures forall d: nat :: ClassOf(d, size) && d < |old(lists)| && old(lists)[d] == [] && old(NoRun(1)) ==>
              !r.Done? || r.value.None?
      ensures forall d: nat :: ClassOf(d, size) && d < |old(lists)| && old(lists)[d] != [] ==>
              pages.pte == old(pages.pte) && lists == old(lists)[d := old(lists)[d][1..]]
      ensures forall d: nat ::
              ClassOf(d, size) && d < |old(lists)| && old(lists)[d] == [] && r.Done? && r.value.Some? ==>
              NewArena(d, r.value.value)
    {
      hide PageSpace.Valid, PageSpace.OutOfMemory, PageSpace.MapFull, ClearBits, HeapOk, PageOf, OnGrid, Size;
      SevenOk(arenas, lists, live, pages.pte.Keys, {});
      var d := FindDesc(size);
      OneClass(d, size);
      ghost var idle: set<nat> := {};
      if lists[d] == [] {
        var got :- FillList(d);
        if got.None? {
          return Done(None);
        }
        idle := {got.value};
      }
      SevenOk(arenas, lists, live, pages.pte.Keys, idle);
      var b := TakeFirst(d, size, idle);
      return Done(Some(b));
    }

    /** The large half: whole pages. */
    method MallocLarge(size: nat) returns (r: Outcome<Option<nat>>)
      requires Valid() && size > LARGEST
      modifies this, pages, pages.vaddrBitmap.bits, pages.pool.bits
      ensures r.AssertFailed? <==> PageCount(size) >= 3840
      ensures (r.Done? ==> Valid()) && (r.Exhausted? ==> MemoryFull())
      ensures r.Exhausted? <==> PageCount(size) < 3840 && old(pages.OutOfMemory(PageCount(size)))
      ensures r == Done(None) ==> Same() && old(NoRun(PageCount(size)))
      ensures r.Done? && r.value.Some? ==> r.value.value !in old(live) && live == old(live)[r.value.value := size]
      ensures r.Done? && r.value.Some? ==> !old(NoRun(PageCount(size)))
      ensures r.Done? && r.value.Some? ==> NewLarge(r.value.value, PageCount(size))
    {
      hide PageSpace.Valid, PageSpace.OutOfMemory, PageSpace.MapFull, ClearBits, HeapOk, Range, PageCount;
      AtLeastOne(size);
      ghost var keys := pages.pte.Keys;
      var got :- pages.MallocPage(PageCount(size));
      if got.None? {
        return Done(None);
      }
      var p := got.value;
      AddLarge(arenas, lists, live, keys, p, size);
      arenas := arenas[p := Large(PageCount(size))];
      live := live[p * PG_SIZE + HEADER := size];
      assert TookRun(p, PageCount(size));
      return Done(Some(p * PG_SIZE + HEADER));
    }

    /** sys_malloc. NULL exactly for size 0, a size not below the pool's, or when no run of virtual pages is
        free for it. Up to 1024 bytes: the first block of the class's list if there is one, else the first of a
        new page. More: the fewest pages that hold header and bytes, and one more. It halts exactly where the map
        of virtual pages is full or has room but the frames do not suffice, and by the assertion of malloc_page
        where it wants 3840 pages or more. */
    method SysMalloc(size: nat) returns (r: Outcome<Option<nat>>)
      requires Valid()
      modifies this, pages, pages.vaddrBitmap.bits, pages.pool.bits
      ensures (r.Done? ==> Valid()) && (r.Exhausted? ==> MemoryFull())
      ensures size == 0 || poolSize <= size ==> r == Done(None)
      ensures r == Done(None) ==> Same()
      ensures r.Done? && r.value.Some? ==> r.value.value !in old(live) && live == old(live)[r.value.value := size]
      ensures r.AssertFailed? ==> size > 1024
      ensures forall d: nat :: ClassOf(d, size) && 1 <= size < poolSize && d < |old(lists)| && old(lists)[d] != [] ==>
                && r == Done(Some(old(lists)[d][0]))
                && pages.pte == old(pages.pte) && lists == old(lists)[d := old(lists)[d][1..]]
      ensures forall d: nat :: ClassOf(d, size) && 1 <= size < poolSize && d < |old(lists)| && old(lists)[d] == [] ==>
                && (r.Exhausted? <==> old(pages.OutOfMemory(1)))
                && (r == Done(None) <==> old(NoRun(1)) && !old(pages.OutOfMemory(1)))
                && (r.Done? && r.value.Some? ==> NewArena(d, r.value.value))
      ensures forall k: nat :: 1024 < size < poolSize && PagesFor(size, k) ==>
                && (r.AssertFailed? <==> k >= 3840)
                && (r.Exhausted? <==> k < 3840 && old(pages.OutOfMemory(k)))
                && (r == Done(None) <==> k < 3840 && old(NoRun(k)) && !old(pages.OutOfMemory(k)))
                && (r.Done? && r.value.Some? ==> NewLarge(r.value.value, k))
    {
      hide PageSpace.Valid, PageSpace.OutOfMemory, PageSpace.MapFull, ClearBits, HeapOk, Size, PageCount, PagesFor,
           NewArena, NewLarge, NoRun;
      if size <= 0 || poolSize <= size {
        return Done(None);
      }
      if size > LARGEST {
        NoClass(size);
        forall k: nat ensures PagesFor(size, k) <==> k == PageCount(size) {
          PageCountIs(size, k);
        }
        r := MallocLarge(size);
      } else {
        r := MallocSmall(size);
      }
    }

    /** The large half of sys_free. */
    method FreeLarge(p: nat) returns (ok: bool)
      requires Valid() && p in arenas && arenas[p].Large?
      modifies this, pages, pages.vaddrBitmap.bits, pages.pool.bits
      ensures ok && Valid() && live == old(live) - {p * PG_SIZE + HEADER}
      ensures pages.pte.Keys == old(pages.pte.Keys) - Range(p, old(arenas)[p].pages) && lists == old(lists)
    {
      hide PageSpace.Valid, HeapOk, Range;
      LargePages(arenas, lists, live, pages.pte.Keys, p);
      DropLarge(arenas, lists, live, pages.pte.Keys, p);
      ghost var keys := pages.pte.Keys;
      ok := pages.MfreePage(p, arenas[p].pages);
      assert pages.pte.Keys == keys - Range(p, arenas[p].pages);
      arenas := arenas - {p};
      live := live - {p * PG_SIZE + HEADER};
    }

    /** The page of an arena without live blocks goes back. */
    method DropArena(p: nat, d: nat) returns (ok: bool)
      requires pages.Valid() && HeapOk(arenas, lists, live, pages.pte.Keys, {p})
      requires p in arenas && arenas[p].Small? && arenas[p].desc == d && arenas[p].freeCnt == BlocksPerArena(d)
      modifies this, pages, pages.vaddrBitmap.bits, pages.pool.bits
      ensures ok && Valid() && live == old(live)
      ensures pages.pte.Keys == old(pages.pte.Keys) - Range(p, 1)
    {
      hide PageSpace.Valid, HeapOk, Range, OnGrid, PageOf, Size, NoRepeat;
      ListFacts(arenas, lists, live, pages.pte.Keys, p, d);
      ghost var was := lists;
      ok := UnlinkBlocks(p, d);
      if !ok {
        return;
      }
      DropSmall(arenas, was, live, pages.pte.Keys, p, d, lists[d]);
      DropKeys(arenas, was, live, pages.pte.Keys, p);
      ghost var keys := pages.pte.Keys;
      ok := pages.MfreePage(p, 1);
      assert pages.pte.Keys == keys - Range(p, 1);
      arenas := arenas - {p};
    }

    /** The small half of sys_free. */
    method FreeSmall(b: nat, d: nat) returns (ok: bool)
      requires Valid() && b in live && IsBlock(arenas, b, d)
      modifies this, pages, pages.vaddrBitmap.bits, pages.pool.bits
      ensures ok && Valid() && live == old(live) - {b} && d < |old(lists)|
      ensures || (pages.pte == old(pages.pte) && lists == old(lists)[d := old(lists)[d] + [b]])
              || pages.pte.Keys == old(pages.pte.Keys) - Range(PageOf(b), 1)
    {
      hide PageSpace.Valid, HeapOk, PageOf, BlocksPerArena, OnGrid;
      BlockClass(arenas, b, d);
      SevenOk(arenas, lists, live, pages.pte.Keys, {});
      GiveBlock(arenas, lists, live, pages.pte.Keys, b, d);
      var p := PageOf(b);
      lists := lists[d := lists[d] + [b]];
      arenas := arenas[p := Small(d, arenas[p].freeCnt + 1)];
      live := live - {b};
      if arenas[p].freeCnt == BlocksPerArena(d) {
        ok := DropArena(p, d);
      } else {
        StillUsed(arenas, lists, live, pages.pte.Keys, p, d);
        ok := true;
      }
    }

    /** sys_free of NULL, which halts, or of what sys_malloc gave: the pages of a large block go back; a small one
        becomes the last of a free list, or its page goes back. */
    method SysFree(ptr: Option<nat>) returns (r: Outcome<()>)
      requires Valid() && (ptr.Some? ==> ptr.value in live)
      modifies this, pages, pages.vaddrBitmap.bits, pages.pool.bits
      ensures r == if ptr.None? then AssertFailed else Done(())
      ensures ptr.Some? ==> Valid() && live == old(live) - {ptr.value}
      ensures ptr.Some? && old(live)[ptr.value] > 1024 ==>
                lists == old(lists) && forall k: nat :: PagesFor(old(live)[ptr.value], k) ==>
                  pages.pte.Keys == old(pages.pte.Keys) - Range(ptr.value / 4096, k)
      ensures ptr.Some? && old(live)[ptr.value] <= 1024 ==>
                || (pages.pte == old(pages.pte) && exists d: nat ::
                      d < |old(lists)| && lists == old(lists)[d := old(lists)[d] + [ptr.value]])
                || pages.pte.Keys == old(pages.pte.Keys) - Range(ptr.value / 4096, 1)
    {
      hide PageSpace.Valid, HeapOk, OnGrid, PageOf, PagesFor, Range;
      if ptr.None? {
        return AssertFailed;
      }
      var b := ptr.value;
      HoldsLive(arenas, lists, live, pages.pte.Keys, b);
      HoldsPages(arenas, lists, live, pages.pte.Keys, b);
      var p := PageOf(b);
      var ok;
      if arenas[p].Large? {
        ok := FreeLarge(p);
      } else {
        ok := FreeSmall(b, arenas[p].desc);
      }
      return if ok then Done(()) else AssertFailed;
    }
  }

  // ---------------------------------------------------------------------------------------
  // What the methods use.

  lemma NotLinkedYet(p: nat, d: nat, k: nat)
    ensures BlockAt(p, d, k) !in Blocks(p, d, k)
    ensures Blocks(p, d, k + 1) == Blocks(p, d, k) + [BlockAt(p, d, k)]
  {
    if BlockAt(p, d, k) in Blocks(p, d, k) {
      var i :| 0 <= i < k && Blocks(p, d, k)[i] == BlockAt(p, d, k);
      BlocksDiffer(p, d, i, k);
    }
  }

  lemma SevenOk(arenas: map<nat, Arena>, lists: seq<seq<nat>>, live: map<nat, nat>, keys: set<nat>, idle: set<nat>)
    requires HeapOk(arenas, lists, live, keys, idle)
    ensures |lists| == DESC_CNT
  {
  }

  lemma FirstBlock(p: nat, d: nat)
    requires d < DESC_CNT
    ensures Blocks(p, d, BlocksPerArena(d)) != [] && PageOf(Blocks(p, d, BlocksPerArena(d))[0]) == p
  {
    SizeFacts(d);
    BlockInPage(p, d, 0);
  }

  lemma OneClass(d: nat, size: nat)
    requires ClassOf(d, size)
    ensures d < DESC_CNT && size <= Size(d) && forall e: nat :: ClassOf(e, size) ==> e == d
  {
    forall e: nat | ClassOf(e, size) ensures e == d {
      assert e < d ==> Size(e) < size;
      assert d < e ==> Size(d) < size;
    }
  }

  lemma NoClass(size: nat)
    requires size > LARGEST
    ensures forall d: nat :: !ClassOf(d, size)
  {
  }

  lemma LargePages(arenas: map<nat, Arena>, lists: seq<seq<nat>>, live: map<nat, nat>, keys: set<nat>, p: nat)
    requires HeapOk(arenas, lists, live, keys, {}) && p in arenas && arenas[p].Large?
    ensures arenas[p].pages >= 1 && Range(p, arenas[p].pages) <= keys
  {
    PagesDrop(arenas, keys, p);
  }

  lemma DropKeys(arenas: map<nat, Arena>, lists: seq<seq<nat>>, live: map<nat, nat>, keys: set<nat>, p: nat)
    requires HeapOk(arenas, lists, live, keys, {p}) && p in arenas && arenas[p].Small?
    ensures Range(p, 1) <= keys
  {
    PagesDrop(arenas, keys, p);
  }

  lemma BlockClass(arenas: map<nat, Arena>, b: nat, d: nat)
    requires IsBlock(arenas, b, d)
    ensures d < DESC_CNT
  {
  }

  /** The list of the class of an idle arena holds all its blocks. */
  lemma ListFacts(arenas: map<nat, Arena>, lists: seq<seq<nat>>, live: map<nat, nat>, keys: set<nat>, p: nat, d: nat)
    requires HeapOk(arenas, lists, live, keys, {p})
    requires p in arenas && arenas[p].Small? && arenas[p].desc == d && arenas[p].freeCnt == BlocksPerArena(d)
    ensures d < DESC_CNT && |lists| == DESC_CNT && NoRepeat(lists[d])
    ensures forall k :: 0 <= k < BlocksPerArena(d) ==> BlockAt(p, d, k) in lists[d]
    ensures forall b :: b in lists[d] ==> OnGrid(b, d)
  {
    hide PagesOk, BlocksPerArena, OnGrid, PageOf;
    NoneLive(arenas, live, p, {p});
    assert SmallOk(arenas[p], live.Keys, p, {p});
    assert ListOk(arenas, lists[d], live, d);
    forall k | 0 <= k < BlocksPerArena(d) ensures BlockAt(p, d, k) in lists[d] {
      BlockInPage(p, d, k);
      assert IsBlock(arenas, BlockAt(p, d, k), d);
    }
  }

  lemma HoldsPages(arenas: map<nat, Arena>, lists: seq<seq<nat>>, live: map<nat, nat>, keys: set<nat>, b: nat)
    requires HeapOk(arenas, lists, live, keys, {}) && b in live
    ensures PageOf(b) in arenas && PageOf(b) == b / 4096
    ensures arenas[PageOf(b)].Large? <==> live[b] > 1024
    ensures forall k: nat :: arenas[PageOf(b)].Large? && PagesFor(live[b], k) ==> k == arenas[PageOf(b)].pages
  {
    hide OnGrid, PagesOk, ArenasOk, ListsOk, PagesFor, PageCount;
    assert Holds(arenas, b, live[b]);
    forall k: nat | PagesFor(live[b], k) ensures k == PageCount(live[b]) {
      PageCountIs(live[b], k);
    }
  }

  lemma HoldsLive(arenas: map<nat, Arena>, lists: seq<seq<nat>>, live: map<nat, nat>, keys: set<nat>, b: nat)
    requires HeapOk(arenas, lists, live, keys, {}) && b in live
    ensures PageOf(b) in arenas
    ensures arenas[PageOf(b)].Large? ==> b == PageOf(b) * PG_SIZE + HEADER
    ensures arenas[PageOf(b)].Small? ==> IsBlock(arenas, b, arenas[PageOf(b)].desc)
  {
    hide OnGrid, PagesOk, ArenasOk, ListsOk;
    assert Holds(arenas, b, live[b]);
  }
}
