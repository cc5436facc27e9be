/** Arenas of the kernel heap (src/kernel/memory.c): one page of equal small blocks, or a run of
    pages for one large block, each with a header of 12 bytes at its start. Addresses count from
    the start of the heap, which is the start of a page. */
module Arenas {
  import opened Sequences

  const PG_SIZE := 4096
  const HEADER := 12
  const DESC_CNT := 7
  const LARGEST := 1024

  /** Header of an arena: its size class and how many of its blocks are free, or how many pages it has. */
  datatype Arena = Small(desc: nat, freeCnt: nat) | Large(pages: nat)

  /** Block size of a class. */
  function Size(d: nat): nat {
    if d == 0 then 16 else if d == 1 then 32 else if d == 2 then 64 else if d == 3 then 128
    else if d == 4 then 256 else if d == 5 then 512 else 1024
  }

  function BlocksPerArena(d: nat): nat {
    (PG_SIZE - HEADER) / Size(d)
  }

  /** arena2block. */
  function BlockAt(p: nat, d: nat, idx: nat): nat {
    p * PG_SIZE + HEADER + idx * Size(d)
  }

  /** block2arena: the page of an address. */
  function PageOf(b: nat): nat {
    b / PG_SIZE
  }

  /** Pages of a large block: one more than needed. */
  function PageCount(size: nat): nat {
    (size + HEADER + PG_SIZE - 1) / PG_SIZE + 1
  }

  /** k pages: one more than the fewest that hold the header of 12 bytes and size bytes more. */
  ghost predicate PagesFor(size: nat, k: nat) {
    (k - 2) * 4096 < size + 12 <= (k - 1) * 4096
  }

  lemma PageCountIs(size: nat, k: nat)
    ensures PagesFor(size, k) <==> k == PageCount(size)
  {
  }

  /** The classes have the powers of two from 16 to 1024, and an arena has as many blocks as fit behind its
      header. */
  lemma Classes(d: nat)
    requires d < DESC_CNT
    ensures DESC_CNT == 7 && Size(0) == 16 && (d + 1 < DESC_CNT ==> Size(d + 1) == 2 * Size(d))
    ensures Size(6) == LARGEST == 1024
    ensures 12 + BlocksPerArena(d) * Size(d) <= 4096 < 12 + (BlocksPerArena(d) + 1) * Size(d)
  {
  }

  /** The address is one of the blocks of a page of class d. */
  ghost predicate OnGrid(b: nat, d: nat) {
    d < DESC_CNT && HEADER <= b % PG_SIZE && (b % PG_SIZE - HEADER) % Size(d) == 0
    && (b % PG_SIZE - HEADER) / Size(d) < BlocksPerArena(d)
  }

  /** The address is a block of a small arena of class d. */
  ghost predicate IsBlock(arenas: map<nat, Arena>, b: nat, d: nat) {
    PageOf(b) in arenas && arenas[PageOf(b)].Small? && arenas[PageOf(b)].desc == d && OnGrid(b, d)
  }

  ghost predicate IsLarge(arenas: map<nat, Arena>, b: nat) {
    PageOf(b) in arenas && arenas[PageOf(b)].Large? && b % PG_SIZE == HEADER
  }

  function Len(a: Arena): nat {
    if a.Small? then 1 else a.pages
  }

  /** Page i belongs to the arena at page p. */
  ghost predicate Owns(arenas: map<nat, Arena>, p: nat, i: nat) {
    p in arenas && p <= i < p + Len(arenas[p])
  }

  ghost predicate Owned(arenas: map<nat, Arena>, i: nat) {
    exists p :: Owns(arenas, p, i)
  }

  /** Each page of the heap belongs to one arena. */
  ghost predicate PagesOk(arenas: map<nat, Arena>, keys: set<nat>) {
    && (forall i :: i in keys <==> Owned(arenas, i))
    && (forall p, q, i :: Owns(arenas, p, i) && Owns(arenas, q, i) ==> p == q)
    && (forall p :: p in arenas ==> Len(arenas[p]) >= 1)
  }

  /** How many of the first n blocks of the page are not live. */
  ghost function FreeCount(live: set<nat>, p: nat, d: nat, n: nat): nat {
    if n == 0 then 0 else FreeCount(live, p, d, n - 1) + if BlockAt(p, d, n - 1) in live then 0 else 1
  }

  /** A small arena counts its free blocks, and has a live one; only arenas in idle may have none. */
  ghost predicate SmallOk(arena: Arena, live: set<nat>, p: nat, idle: set<nat>) {
    arena.Small? ==>
      && arena.desc < DESC_CNT
      && arena.freeCnt == FreeCount(live, p, arena.desc, BlocksPerArena(arena.desc))
      && (p !in idle ==> arena.freeCnt < BlocksPerArena(arena.desc))
  }

  ghost predicate ArenasOk(arenas: map<nat, Arena>, live: map<nat, nat>, idle: set<nat>) {
    forall p :: p in arenas ==>
      && SmallOk(arenas[p], live.Keys, p, idle)
      && (arenas[p].Large? ==> p * PG_SIZE + HEADER in live)
  }

  /** The address holds an allocation of size bytes: a block of a class of at least that size,
      or a large block of exactly the pages for that size. */
  ghost predicate Holds(arenas: map<nat, Arena>, b: nat, size: nat) {
    PageOf(b) in arenas &&
    match arenas[PageOf(b)]
    case Small(d, _) => OnGrid(b, d) && 1 <= size <= Size(d)
    case Large(n) => b % PG_SIZE == HEADER && LARGEST < size && n == PageCount(size)
  }

  ghost predicate LiveOk(arenas: map<nat, Arena>, live: map<nat, nat>) {
    forall b :: b in live ==> Holds(arenas, b, live[b])
  }

  /** The free list of a class holds exactly the blocks of its arenas that are not live. */
  ghost predicate ListOk(arenas: map<nat, Arena>, list: seq<nat>, live: map<nat, nat>, d: nat) {
    NoRepeat(list) && forall b :: b in list <==> IsBlock(arenas, b, d) && b !in live
  }

  ghost predicate ListsOk(arenas: map<nat, Arena>, lists: seq<seq<nat>>, live: map<nat, nat>) {
    |lists| == DESC_CNT && forall d :: 0 <= d < DESC_CNT ==> ListOk(arenas, lists[d], live, d)
  }

  ghost predicate HeapOk(arenas: map<nat, Arena>, lists: seq<seq<nat>>, live: map<nat, nat>, keys: set<nat>,
                         idle: set<nat>) {
    && PagesOk(arenas, keys)
    && ArenasOk(arenas, live, idle)
    && LiveOk(arenas, live)
    && ListsOk(arenas, lists, live)
  }

  // ---------------------------------------------------------------------------------------
  // Addresses.

  lemma SizeFacts(d: nat)
    requires d < DESC_CNT
    ensures Size(d) >= 16 && BlocksPerArena(d) >= 3 && BlocksPerArena(d) * Size(d) <= PG_SIZE - HEADER
  {
  }

  /** block2arena undoes arena2block, and a block lies within its page. */
  lemma BlockInPage(p: nat, d: nat, idx: nat)
    requires d < DESC_CNT && idx < BlocksPerArena(d)
    ensures PageOf(BlockAt(p, d, idx)) == p && OnGrid(BlockAt(p, d, idx), d)
    ensures BlockAt(p, d, idx) + Size(d) <= (p + 1) * PG_SIZE
  {
    BlockFits(d, idx);
    InPage(p, HEADER + idx * Size(d));
    Multiple(idx, d);
  }

  lemma BlockFits(d: nat, idx: nat)
    requires d < DESC_CNT && idx < BlocksPerArena(d)
    ensures idx * Size(d) + Size(d) <= PG_SIZE - HEADER
  {
    assert (idx + 1) * Size(d) <= BlocksPerArena(d) * Size(d);
  }

  lemma InPage(p: nat, off: nat)
    requires off < PG_SIZE
    ensures (p * PG_SIZE + off) / PG_SIZE == p && (p * PG_SIZE + off) % PG_SIZE == off
  {
  }

  lemma Multiple(k: nat, d: nat)
    ensures k * Size(d) / Size(d) == k && k * Size(d) % Size(d) == 0
  {
    assert k * 16 / 16 == k && k * 32 / 32 == k && k * 64 / 64 == k && k * 128 / 128 == k;
    assert k * 256 / 256 == k && k * 512 / 512 == k && k * 1024 / 1024 == k;
  }

  lemma {:induction false} BlocksDiffer(p: nat, d: nat, i: nat, j: nat)
    requires BlockAt(p, d, i) == BlockAt(p, d, j)
    ensures i == j
  {
    assert (j - i) * Size(d) == 0;
  }

  /** Every address on the grid is a numbered block of its page. */
  lemma GridIndex(b: nat, d: nat) returns (idx: nat)
    requires OnGrid(b, d)
    ensures idx < BlocksPerArena(d) && b == BlockAt(PageOf(b), d, idx)
  {
    idx := (b % PG_SIZE - HEADER) / Size(d);
    assert b == PageOf(b) * PG_SIZE + b % PG_SIZE;
  }

  // ---------------------------------------------------------------------------------------
  // Counting free blocks.

  lemma {:induction false} CountBound(live: set<nat>, p: nat, d: nat, n: nat)
    ensures FreeCount(live, p, d, n) <= n
  {
    if n > 0 {
      CountBound(live, p, d, n - 1);
    }
  }

  /** All counted free means none of them is live. */
  lemma {:induction false} CountFull(live: set<nat>, p: nat, d: nat, n: nat)
    ensures FreeCount(live, p, d, n) == n <==> forall i :: 0 <= i < n ==> BlockAt(p, d, i) !in live
  {
    if n > 0 {
      CountFull(live, p, d, n - 1);
      CountBound(live, p, d, n - 1);
    }
  }

  /** Only the page's own blocks matter. */
  lemma {:induction false} CountSame(l1: set<nat>, l2: set<nat>, p: nat, d: nat, n: nat)
    requires forall i :: 0 <= i < n ==> (BlockAt(p, d, i) in l1 <==> BlockAt(p, d, i) in l2)
    ensures FreeCount(l1, p, d, n) == FreeCount(l2, p, d, n)
  {
    if n > 0 {
      CountSame(l1, l2, p, d, n - 1);
    }
  }

  /** One block less free when it becomes live. */
  lemma {:induction false} CountOne(live: set<nat>, p: nat, d: nat, n: nat, k: nat)
    requires k < n && BlockAt(p, d, k) !in live
    ensures FreeCount(live + {BlockAt(p, d, k)}, p, d, n) + 1 == FreeCount(live, p, d, n)
  {
    if k == n - 1 {
      forall i | 0 <= i < n - 1 ensures BlockAt(p, d, i) != BlockAt(p, d, k) {
        if BlockAt(p, d, i) == BlockAt(p, d, k) {
          BlocksDiffer(p, d, i, k);
        }
      }
      CountSame(live, live + {BlockAt(p, d, k)}, p, d, n - 1);
    } else {
      CountOne(live, p, d, n - 1, k);
      if BlockAt(p, d, n - 1) == BlockAt(p, d, k) {
        BlocksDiffer(p, d, n - 1, k);
      }
    }
  }

  /** Adding an address outside the page changes nothing. */
  lemma CountElsewhere(live: set<nat>, p: nat, d: nat, b: nat)
    requires d < DESC_CNT && PageOf(b) != p
    ensures FreeCount(live + {b}, p, d, BlocksPerArena(d)) == FreeCount(live, p, d, BlocksPerArena(d))
    ensures FreeCount(live - {b}, p, d, BlocksPerArena(d)) == FreeCount(live, p, d, BlocksPerArena(d))
  {
    forall i | 0 <= i < BlocksPerArena(d) ensures BlockAt(p, d, i) != b {
      BlockInPage(p, d, i);
    }
    CountSame(live + {b}, live, p, d, BlocksPerArena(d));
    CountSame(live - {b}, live, p, d, BlocksPerArena(d));
  }
}
