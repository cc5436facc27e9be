/** Results about the kernel heap (src/kernel/memory.c): what live blocks may rely on, and that freeing
    everything gives everything back. */
module HeapRuns {
  import opened Results
  import opened Sequences
  import opened Bitmaps
  import opened PageSpaces
  import opened Arenas
  import opened ArenaSteps
  import opened Heaps

  // ---------------------------------------------------------------------------------------
  // Blocks do not overlap.

  /** A block that is live or in a free list, or a large block. */
  ghost predicate IsPiece(arenas: map<nat, Arena>, b: nat) {
    IsLarge(arenas, b) || exists d :: IsBlock(arenas, b, d)
  }

  /** First byte behind the block: of its class, or the end of the large arena's pages. */
  ghost function End(arenas: map<nat, Arena>, b: nat): nat
    requires PageOf(b) in arenas
  {
    match arenas[PageOf(b)]
    case Small(d, _) => b + Size(d)
    case Large(n) => (PageOf(b) + n) * PG_SIZE
  }

  /** A block lies in the pages of its arena, behind the header. */
  lemma PieceInside(arenas: map<nat, Arena>, keys: set<nat>, b: nat)
    requires PagesOk(arenas, keys) && IsPiece(arenas, b)
    ensures PageOf(b) in arenas && PageOf(b) * PG_SIZE + HEADER <= b < End(arenas, b)
    ensures End(arenas, b) <= (PageOf(b) + Len(arenas[PageOf(b)])) * PG_SIZE
  {
    hide OnGrid;
    var p := PageOf(b);
    assert b == p * PG_SIZE + b % PG_SIZE;
    if !IsLarge(arenas, b) {
      var d :| IsBlock(arenas, b, d);
      GridInside(b, d);
    } else {
      assert Len(arenas[p]) >= 1;
    }
  }

  lemma GridInside(b: nat, d: nat)
    requires OnGrid(b, d)
    ensures PageOf(b) * PG_SIZE + HEADER <= b && b + Size(d) <= (PageOf(b) + 1) * PG_SIZE
  {
    hide OnGrid;
    var k := GridIndex(b, d);
    OnGridClass(b, d);
    BlockInPage(PageOf(b), d, k);
    assert k * Size(d) >= 0;
  }

  lemma OnGridClass(b: nat, d: nat)
    requires OnGrid(b, d)
    ensures d < DESC_CNT
  {
  }

  /** Arenas do not share pages. */
  lemma ArenasApart(arenas: map<nat, Arena>, keys: set<nat>, p: nat, q: nat)
    requires PagesOk(arenas, keys) && p in arenas && q in arenas && p < q
    ensures p + Len(arenas[p]) <= q
  {
    assert Owns(arenas, q, q);
    assert q < p + Len(arenas[p]) ==> Owns(arenas, p, q);
  }

  lemma SameArenaApart(d: nat, b: nat, c: nat)
    requires OnGrid(b, d) && OnGrid(c, d) && PageOf(b) == PageOf(c) && b < c
    ensures b + Size(d) <= c
  {
    hide OnGrid;
    var i := GridIndex(b, d);
    var j := GridIndex(c, d);
    if j <= i {
      Times(d, j, i);
    } else {
      Times(d, i + 1, j);
    }
  }

  lemma Times(d: nat, i: nat, j: nat)
    requires i <= j
    ensures i * Size(d) <= j * Size(d)
  {
    assert (j - i) * Size(d) >= 0;
  }

  /** Any two blocks lie apart, so live ones cannot overlap, and the links that a free list keeps inside
      its blocks are in no live block. */
  lemma PiecesApart(arenas: map<nat, Arena>, keys: set<nat>, b: nat, c: nat)
    requires PagesOk(arenas, keys) && IsPiece(arenas, b) && IsPiece(arenas, c) && b < c
    ensures PageOf(b) in arenas && End(arenas, b) <= c
  {
    hide OnGrid, PagesOk;
    PieceInside(arenas, keys, b);
    PieceInside(arenas, keys, c);
    var p, q := PageOf(b), PageOf(c);
    assert b == p * PG_SIZE + b % PG_SIZE && c == q * PG_SIZE + c % PG_SIZE;
    if p == q {
      if arenas[p].Small? {
        var d :| IsBlock(arenas, b, d);
        var e :| IsBlock(arenas, c, e);
        SameArenaApart(d, b, c);
      }
    } else {
      assert p < q;
      ArenasApart(arenas, keys, p, q);
      assert (p + Len(arenas[p])) * PG_SIZE <= q * PG_SIZE;
    }
  }

  lemma LivePiece(arenas: map<nat, Arena>, live: map<nat, nat>, b: nat)
    requires LiveOk(arenas, live) && b in live
    ensures IsPiece(arenas, b) && PageOf(b) in arenas && b + live[b] <= End(arenas, b)
  {
    hide OnGrid, PageCount;
    assert Holds(arenas, b, live[b]);
    var p := PageOf(b);
    assert b == p * PG_SIZE + b % PG_SIZE;
    match arenas[p]
    case Small(d, _) =>
      assert IsBlock(arenas, b, d);
    case Large(n) =>
      AtLeastOne(live[b]);
      assert (p + n) * PG_SIZE == p * PG_SIZE + n * PG_SIZE;
  }

  /** Two blocks, one of them live, lie apart. */
  lemma LiveApart(arenas: map<nat, Arena>, live: map<nat, nat>, keys: set<nat>, b: nat, c: nat)
    requires PagesOk(arenas, keys) && LiveOk(arenas, live) && b in live && IsPiece(arenas, c) && b != c
    ensures PageOf(c) in arenas && (b + live[b] <= c || End(arenas, c) <= b)
  {
    hide PagesOk, LiveOk, OnGrid, PageOf, IsPiece, End;
    LivePiece(arenas, live, b);
    PieceInside(arenas, keys, c);
    if b < c {
      PiecesApart(arenas, keys, b, c);
    } else {
      PiecesApart(arenas, keys, c, b);
    }
  }

  /** What callers get: all their bytes, in mapped pages, apart from all headers, other live blocks
      and free blocks. */
  lemma LiveBlocksAreSafe(arenas: map<nat, Arena>, lists: seq<seq<nat>>, live: map<nat, nat>, keys: set<nat>, b: nat)
    requires HeapOk(arenas, lists, live, keys, {}) && b in live
    ensures forall x :: b <= x < b + live[b] ==> PageOf(x) in keys
    ensures forall p :: p in arenas ==> b + live[b] <= p * PG_SIZE || p * PG_SIZE + HEADER <= b
    ensures forall c :: c in live && c != b ==> b + live[b] <= c || c + live[c] <= b
    ensures forall d, c :: 0 <= d < DESC_CNT && c in lists[d] ==> b + live[b] <= c || c + Size(d) <= b
  {
    hide PagesOk, LiveOk, ArenasOk, OnGrid, PageOf, Size, IsPiece, End, ListOk;
    LivePiece(arenas, live, b);
    PieceInside(arenas, keys, b);
    forall x | b <= x < b + live[b] ensures PageOf(x) in keys {
      ByteMapped(arenas, keys, b, x);
    }
    forall p | p in arenas ensures b + live[b] <= p * PG_SIZE || p * PG_SIZE + HEADER <= b {
      HeaderApart(arenas, keys, b, p);
    }
    forall c | c in live && c != b ensures b + live[b] <= c || c + live[c] <= b {
      LivePiece(arenas, live, c);
      LiveApart(arenas, live, keys, b, c);
    }
    forall d, c | 0 <= d < DESC_CNT && c in lists[d] ensures b + live[b] <= c || c + Size(d) <= b {
      ListedPiece(arenas, lists[d], live, c, d);
      LiveApart(arenas, live, keys, b, c);
    }
  }

  lemma ListedPiece(arenas: map<nat, Arena>, list: seq<nat>, live: map<nat, nat>, c: nat, d: nat)
    requires ListOk(arenas, list, live, d) && c in list
    ensures c !in live && IsPiece(arenas, c) && PageOf(c) in arenas && End(arenas, c) == c + Size(d)
  {
    hide OnGrid, PageOf;
    assert IsBlock(arenas, c, d);
  }

  lemma ByteMapped(arenas: map<nat, Arena>, keys: set<nat>, b: nat, x: nat)
    requires PagesOk(arenas, keys) && PageOf(b) in arenas && b <= x < (PageOf(b) + Len(arenas[PageOf(b)])) * PG_SIZE
    ensures PageOf(x) in keys
  {
    assert Owns(arenas, PageOf(b), PageOf(x));
    assert Owned(arenas, PageOf(x));
  }

  lemma HeaderApart(arenas: map<nat, Arena>, keys: set<nat>, b: nat, p: nat)
    requires PagesOk(arenas, keys) && IsPiece(arenas, b) && p in arenas
    ensures PageOf(b) in arenas && (End(arenas, b) <= p * PG_SIZE || p * PG_SIZE + HEADER <= b)
  {
    hide PagesOk;
    PieceInside(arenas, keys, b);
    var q := PageOf(b);
    if q < p {
      ArenasApart(arenas, keys, q, p);
      assert (q + Len(arenas[q])) * PG_SIZE <= p * PG_SIZE;
    } else {
      assert p * PG_SIZE <= q * PG_SIZE;
    }
  }

  // ---------------------------------------------------------------------------------------
  // Everything comes back.

  /** A page of the heap is there for a live block: no arena is kept for nothing. */
  lemma ArenaIsUsed(arenas: map<nat, Arena>, lists: seq<seq<nat>>, live: map<nat, nat>, keys: set<nat>, p: nat)
    returns (b: nat)
    requires HeapOk(arenas, lists, live, keys, {}) && p in arenas
    ensures b in live && PageOf(b) == p
  {
    hide PagesOk, LiveOk, ListsOk, OnGrid, BlocksPerArena;
    assert SmallOk(arenas[p], live.Keys, p, {});
    if arenas[p].Large? {
      LargeAddress(p);
      return p * PG_SIZE + HEADER;
    }
    var d := arenas[p].desc;
    CountFull(live.Keys, p, d, BlocksPerArena(d));
    var k :| 0 <= k < BlocksPerArena(d) && BlockAt(p, d, k) in live.Keys;
    BlockInPage(p, d, k);
    return BlockAt(p, d, k);
  }

  lemma HeadIn(list: seq<nat>)
    ensures list == [] || list[0] in list
  {
  }

  /** With nothing live there is no arena, no free block and no page. */
  lemma NothingLive(arenas: map<nat, Arena>, lists: seq<seq<nat>>, keys: set<nat>)
    requires HeapOk(arenas, lists, map[], keys, {})
    ensures arenas == map[] && keys == {} && forall d :: 0 <= d < |lists| ==> lists[d] == []
  {
    hide LiveOk, OnGrid;
    if p :| p in arenas {
      var b := ArenaIsUsed(arenas, lists, map[], keys, p);
    }
    assert arenas == map[];
    assert forall i: nat :: !Owned(arenas, i);
    forall d | 0 <= d < |lists| ensures lists[d] == [] {
      HeadIn(lists[d]);
      assert ListOk(arenas, lists[d], map[], d);
    }
  }

  // ---------------------------------------------------------------------------------------
  // Runs.

  /** Free(k): sys_free of the k-th pointer that the caller holds. */
  datatype Request = Malloc(size: nat) | Free(k: nat)

  /** The caller holds exactly the live pointers. */
  ghost predicate Holding(held: seq<nat>, live: map<nat, nat>) {
    NoRepeat(held) && forall b :: b in held <==> b in live
  }

  lemma HoldsNothing(live: map<nat, nat>)
    ensures Holding([], live) <==> live == map[]
  {
    assert (forall b :: b !in live) ==> live == map[];
  }

  lemma HoldsMore(held: seq<nat>, live: map<nat, nat>, b: nat, size: nat)
    requires Holding(held, live) && b !in live
    ensures Holding(held + [b], live[b := size])
  {
  }

  lemma HoldsLess(held: seq<nat>, live: map<nat, nat>, k: nat)
    requires Holding(held, live) && k < |held|
    ensures held[k] in live && Holding(held[..k] + held[k + 1..], live - {held[k]})
  {
    WithoutAt(held, k);
    WithoutKeeps(held, held[k]);
  }

  /** Any run of requests ends in a heap in order, or halts on a full map of pages or of frames, or where a request
      was for too much; and if the caller holds nothing in the end, the bitmap of virtual pages, the bitmap of
      frames and the sharer counts are as before the heap was used. */
  method Serve(heap: Heap, requests: seq<Request>) returns (r: Outcome<seq<nat>>)
    requires heap.Valid() && heap.live == map[]
    modifies heap, heap.pages, heap.pages.vaddrBitmap.bits, heap.pages.pool.bits
    ensures r.AssertFailed? ==> exists q :: q in requests && q.Malloc? && q.size + 12 > 3838 * 4096
    ensures r.Exhausted? ==> heap.MemoryFull()
    ensures r.Done? ==> heap.Valid() && Holding(r.value, heap.live)
    ensures r == Done([]) ==> Untouched(heap)
  {
    hide Heap.Valid, Heap.MemoryFull, PagesFor, PageSpace.Valid, PageSpace.OutOfMemory, HeapOk, Size, PageCount,
         Untouched, Holding;
    var held := [];
    HoldsNothing(heap.live);
    var k := 0;
    while k < |requests|
      invariant 0 <= k <= |requests| && heap.Valid() && Holding(held, heap.live)
    {
      var q := requests[k];
      assert q in requests;
      if q.Malloc? {
        ghost var before := heap.live;
        SomePages(q.size);
        var got := heap.SysMalloc(q.size);
        if !got.Done? {
          return if got.Exhausted? then Exhausted else AssertFailed;
        }
        if got.value.Some? {
          HoldsMore(held, before, got.value.value, q.size);
          held := held + [got.value.value];
        }
      } else if q.k < |held| {
        HoldsLess(held, heap.live, q.k);
        var freed := heap.SysFree(Some(held[q.k]));
        held := held[..q.k] + held[q.k + 1..];
      }
      k := k + 1;
    }
    if held == [] {
      HoldsNothing(heap.live);
      AllGone(heap);
    }
    return Done(held);
  }

  lemma SomePages(size: nat)
    ensures exists k: nat :: PagesFor(size, k) && (k >= 3840 <==> size + 12 > 3838 * 4096)
  {
    PageCountIs(size, PageCount(size));
  }

  /** The three tables say what they said before the heap took its first page. */
  ghost predicate Untouched(heap: Heap)
    reads heap, heap.pages, heap.pages.vaddrBitmap.bits, heap.pages.pool.bits
  {
    && heap.pages.vaddrBitmap.Valid() && heap.pages.pool.Valid()
    && heap.pages.vaddrBitmap.Window() == heap.pages.base.vbits
    && heap.pages.pool.Contents() == heap.pages.base.pbits
    && heap.pages.mem == heap.pages.base.mem
  }

  lemma AllGone(heap: Heap)
    requires heap.Valid() && heap.live == map[]
    ensures Untouched(heap)
  {
    hide HeapOk, Bitmap.Contents, Bitmap.Window, TablesSay;
    NothingLive(heap.arenas, heap.lists, heap.pages.pte.Keys);
    assert heap.pages.pte == map[];
    NothingLeft(heap.pages.base, heap.pages.vaddrBitmap.Window(), heap.pages.pool.Contents(), heap.pages.mem);
  }
}
