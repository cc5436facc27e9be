/** What each step of sys_malloc and sys_free (src/kernel/memory.c) does to the arenas, the free
    lists and the live allocations, and that the invariant of the heap stays. */
module ArenaSteps {
  import opened Sets
  import opened Sequences
  import opened Arenas

  // ---------------------------------------------------------------------------------------
  // Pages.

  lemma PagesAdd(arenas: map<nat, Arena>, keys: set<nat>, p: nat, a: Arena)
    requires PagesOk(arenas, keys) && Len(a) >= 1 && keys !! Range(p, Len(a))
    ensures p !in arenas && PagesOk(arenas[p := a], keys + Range(p, Len(a)))
  {
    var after := arenas[p := a];
    RangeFacts(p, Len(a));
    if p in arenas {
      assert Owns(arenas, p, p);
      assert Owned(arenas, p);
    }
    forall q, i: nat ensures Owns(after, q, i) <==> if q == p then i in Range(p, Len(a)) else Owns(arenas, q, i) {
    }
    forall i: nat ensures i in keys + Range(p, Len(a)) <==> Owned(after, i) {
      if Owned(after, i) {
        var q :| Owns(after, q, i);
        assert q != p ==> Owned(arenas, i);
      }
      if i in keys {
        var q :| Owns(arenas, q, i);
        assert Owns(after, q, i);
      }
      if i in Range(p, Len(a)) {
        assert Owns(after, p, i);
      }
    }
    forall q, r, i: nat | Owns(after, q, i) && Owns(after, r, i) ensures q == r {
      if (q != p && r == p) || (q == p && r != p) {
        assert Owned(arenas, i);
      }
    }
  }

  lemma PagesSame(arenas: map<nat, Arena>, keys: set<nat>, p: nat, a: Arena)
    requires PagesOk(arenas, keys) && p in arenas && Len(a) == Len(arenas[p])
    ensures PagesOk(arenas[p := a], keys)
  {
    var after := arenas[p := a];
    forall q, i: nat ensures Owns(after, q, i) <==> Owns(arenas, q, i) {
    }
    forall i: nat ensures Owned(after, i) <==> Owned(arenas, i) {
      if Owned(arenas, i) {
        var q :| Owns(arenas, q, i);
        assert Owns(after, q, i);
      }
    }
  }

  lemma PagesDrop(arenas: map<nat, Arena>, keys: set<nat>, p: nat)
    requires PagesOk(arenas, keys) && p in arenas
    ensures Range(p, Len(arenas[p])) <= keys
    ensures PagesOk(arenas - {p}, keys - Range(p, Len(arenas[p])))
  {
    var after := arenas - {p};
    RangeFacts(p, Len(arenas[p]));
    forall q, i: nat ensures Owns(after, q, i) <==> q != p && Owns(arenas, q, i) {
    }
    forall i: nat | i in Range(p, Len(arenas[p])) ensures i in keys {
      assert Owns(arenas, p, i);
      assert Owned(arenas, i);
    }
    forall i: nat ensures i in keys - Range(p, Len(arenas[p])) <==> Owned(after, i) {
      if Owned(after, i) {
        var q :| Owns(after, q, i);
        assert Owned(arenas, i);
        assert i in Range(p, Len(arenas[p])) ==> Owns(arenas, p, i);
      }
      if i in keys && i !in Range(p, Len(arenas[p])) {
        var q :| Owns(arenas, q, i);
        assert Owns(after, q, i);
      }
    }
  }

  // ---------------------------------------------------------------------------------------
  // A new small arena.

  /** The blocks of a new arena, in the order in which they are linked. */
  ghost function Blocks(p: nat, d: nat, n: nat): (s: seq<nat>)
    ensures |s| == n && forall i :: 0 <= i < n ==> s[i] == BlockAt(p, d, i)
  {
    if n == 0 then [] else Blocks(p, d, n - 1) + [BlockAt(p, d, n - 1)]
  }

  /** Nothing is live in a page without an arena. */
  lemma NoLive(arenas: map<nat, Arena>, live: map<nat, nat>, p: nat)
    requires LiveOk(arenas, live) && p !in arenas
    ensures forall b :: b in live ==> PageOf(b) != p
  {
    assert forall b :: b in live ==> Holds(arenas, b, live[b]);
  }

  lemma BlocksOnGrid(p: nat, d: nat)
    requires d < DESC_CNT
    ensures NoRepeat(Blocks(p, d, BlocksPerArena(d)))
    ensures forall b :: b in Blocks(p, d, BlocksPerArena(d)) <==> PageOf(b) == p && OnGrid(b, d)
  {
    hide OnGrid;
    var s := Blocks(p, d, BlocksPerArena(d));
    forall i, j | 0 <= i < j < |s| ensures s[i] != s[j] {
      if s[i] == s[j] {
        BlocksDiffer(p, d, i, j);
      }
    }
    forall b: nat ensures b in s <==> PageOf(b) == p && OnGrid(b, d) {
      if b in s {
        var i :| 0 <= i < |s| && s[i] == b;
        BlockInPage(p, d, i);
      }
      if PageOf(b) == p && OnGrid(b, d) {
        var i := GridIndex(b, d);
        assert s[i] == b;
      }
    }
  }

  lemma CountNew(live: map<nat, nat>, p: nat, d: nat)
    requires d < DESC_CNT && forall b :: b in live ==> PageOf(b) != p
    ensures FreeCount(live.Keys, p, d, BlocksPerArena(d)) == BlocksPerArena(d)
  {
    forall i | 0 <= i < BlocksPerArena(d) ensures BlockAt(p, d, i) !in live.Keys {
      BlockInPage(p, d, i);
    }
    CountFull(live.Keys, p, d, BlocksPerArena(d));
  }

  /** Live allocations stay where they are when other arenas come. */
  lemma LiveStays(arenas: map<nat, Arena>, live: map<nat, nat>, p: nat, a: Arena)
    requires LiveOk(arenas, live) && p !in arenas
    ensures LiveOk(arenas[p := a], live)
  {
    hide OnGrid;
    forall b | b in live ensures Holds(arenas[p := a], b, live[b]) {
      assert Holds(arenas, b, live[b]);
    }
  }

  lemma ListsNew(arenas: map<nat, Arena>, lists: seq<seq<nat>>, live: map<nat, nat>, p: nat, d: nat, c: nat)
    requires ListsOk(arenas, lists, live) && p !in arenas && d < DESC_CNT && lists[d] == []
    requires forall b :: b in live ==> PageOf(b) != p
    ensures ListsOk(arenas[p := Small(d, c)], lists[d := Blocks(p, d, BlocksPerArena(d))], live)
  {
    hide OnGrid, Blocks, PageOf;
    BlocksOnGrid(p, d);
    var after := arenas[p := Small(d, c)];
    var lists' := lists[d := Blocks(p, d, BlocksPerArena(d))];
    forall e | 0 <= e < DESC_CNT ensures ListOk(after, lists'[e], live, e)
    {
      assert ListOk(arenas, lists[e], live, e);
      forall b: nat ensures IsBlock(after, b, e) <==>
        if PageOf(b) == p then e == d && OnGrid(b, e) else IsBlock(arenas, b, e) {
      }
      if e == d {
        assert forall b :: b in lists[d] <==> IsBlock(arenas, b, d) && b !in live;
      }
    }
  }

  lemma AddSmall(arenas: map<nat, Arena>, lists: seq<seq<nat>>, live: map<nat, nat>, keys: set<nat>, p: nat, d: nat)
    requires HeapOk(arenas, lists, live, keys, {}) && d < DESC_CNT && lists[d] == [] && keys !! Range(p, 1)
    ensures p !in arenas
    ensures HeapOk(arenas[p := Small(d, BlocksPerArena(d))], lists[d := Blocks(p, d, BlocksPerArena(d))], live,
                   keys + Range(p, 1), {p})
  {
    hide PagesOk, LiveOk, ListsOk, Blocks, Range, BlocksPerArena, PageOf;
    PagesAdd(arenas, keys, p, Small(d, BlocksPerArena(d)));
    NoLive(arenas, live, p);
    CountNew(live, p, d);
    LiveStays(arenas, live, p, Small(d, BlocksPerArena(d)));
    ListsNew(arenas, lists, live, p, d, BlocksPerArena(d));
    var after := arenas[p := Small(d, BlocksPerArena(d))];
    forall q | q in after
      ensures SmallOk(after[q], live.Keys, q, {p}) && (after[q].Large? ==> q * PG_SIZE + HEADER in live)
    {
      assert q != p ==> SmallOk(arenas[q], live.Keys, q, {});
    }
  }

  // ---------------------------------------------------------------------------------------
  // A block is handed out.

  /** The arena of a block that is in the free list. */
  lemma ListedBlock(arenas: map<nat, Arena>, lists: seq<seq<nat>>, live: map<nat, nat>, keys: set<nat>,
                    idle: set<nat>, d: nat)
    requires HeapOk(arenas, lists, live, keys, idle) && d < DESC_CNT && lists[d] != []
    ensures IsBlock(arenas, lists[d][0], d) && lists[d][0] !in live
    ensures arenas[PageOf(lists[d][0])].freeCnt >= 1
  {
    hide PagesOk, LiveOk, OnGrid, BlocksPerArena, PageOf;
    var b := lists[d][0];
    assert ListOk(arenas, lists[d], live, d);
    assert b in lists[d];
    assert SmallOk(arenas[PageOf(b)], live.Keys, PageOf(b), idle);
    var k := GridIndex(b, d);
    CountOne(live.Keys, PageOf(b), d, BlocksPerArena(d), k);
  }

  /** The counts, when a block becomes live or free. */
  lemma CountsTake(arenas: map<nat, Arena>, live: map<nat, nat>, idle: set<nat>, b: nat, d: nat, size: nat)
    requires ArenasOk(arenas, live, idle) && IsBlock(arenas, b, d) && b !in live && idle <= {PageOf(b)}
    requires arenas[PageOf(b)].freeCnt >= 1
    ensures ArenasOk(arenas[PageOf(b) := Small(d, arenas[PageOf(b)].freeCnt - 1)], live[b := size], {})
  {
    hide OnGrid, BlocksPerArena, PageOf;
    var p := PageOf(b);
    var after := arenas[p := Small(d, arenas[p].freeCnt - 1)];
    var live' := live[b := size];
    assert live'.Keys == live.Keys + {b};
    forall q | q in after
      ensures SmallOk(after[q], live'.Keys, q, {}) && (after[q].Large? ==> q * PG_SIZE + HEADER in live')
    {
      assert SmallOk(arenas[q], live.Keys, q, idle);
      if q == p {
        var k := GridIndex(b, d);
        CountOne(live.Keys, p, d, BlocksPerArena(d), k);
        CountBound(live.Keys, p, d, BlocksPerArena(d));
      } else if arenas[q].Small? {
        CountElsewhere(live.Keys, q, arenas[q].desc, b);
      }
    }
  }

  lemma CountsGive(arenas: map<nat, Arena>, live: map<nat, nat>, b: nat, d: nat)
    requires ArenasOk(arenas, live, {}) && IsBlock(arenas, b, d) && b in live
    ensures ArenasOk(arenas[PageOf(b) := Small(d, arenas[PageOf(b)].freeCnt + 1)], live - {b}, {PageOf(b)})
  {
    hide OnGrid, BlocksPerArena, PageOf;
    var p := PageOf(b);
    var after := arenas[p := Small(d, arenas[p].freeCnt + 1)];
    var live' := live - {b};
    assert live'.Keys == live.Keys - {b};
    forall q | q in after
      ensures SmallOk(after[q], live'.Keys, q, {p}) && (after[q].Large? ==> q * PG_SIZE + HEADER in live')
    {
      assert SmallOk(arenas[q], live.Keys, q, {});
      if q == p {
        var k := GridIndex(b, d);
        CountOne(live'.Keys, p, d, BlocksPerArena(d), k);
        assert live'.Keys + {b} == live.Keys;
      } else {
        if arenas[q].Small? {
          CountElsewhere(live.Keys, q, arenas[q].desc, b);
        } else {
          LargeElsewhere(q, b);
        }
      }
    }
  }

  lemma LargeElsewhere(q: nat, b: nat)
    requires PageOf(b) != q
    ensures b != q * PG_SIZE + HEADER
  {
  }

  /** Arenas that only change their count hold what they held. */
  lemma LiveCount(arenas: map<nat, Arena>, live: map<nat, nat>, p: nat, c: nat)
    requires LiveOk(arenas, live) && p in arenas && arenas[p].Small?
    ensures LiveOk(arenas[p := Small(arenas[p].desc, c)], live)
  {
    hide OnGrid;
    forall b | b in live ensures Holds(arenas[p := Small(arenas[p].desc, c)], b, live[b]) {
      assert Holds(arenas, b, live[b]);
    }
  }

  lemma ListsTake(arenas: map<nat, Arena>, lists: seq<seq<nat>>, live: map<nat, nat>, b: nat, d: nat, c: nat, size: nat)
    requires ListsOk(arenas, lists, live) && d < DESC_CNT && lists[d] != [] && lists[d][0] == b && IsBlock(arenas, b, d)
    ensures ListsOk(arenas[PageOf(b) := Small(d, c)], lists[d := lists[d][1..]], live[b := size])
  {
    hide OnGrid, PageOf;
    var after := arenas[PageOf(b) := Small(d, c)];
    var lists' := lists[d := lists[d][1..]];
    forall e | 0 <= e < DESC_CNT ensures ListOk(after, lists'[e], live[b := size], e) {
      assert ListOk(arenas, lists[e], live, e);
      forall x: nat ensures IsBlock(after, x, e) <==> IsBlock(arenas, x, e) {
      }
      if e == d {
        assert lists[d] == [b] + lists[d][1..];
        assert forall i :: 0 <= i < |lists[d][1..]| ==> lists[d][1..][i] == lists[d][i + 1];
        assert b !in lists[d][1..];
      } else {
        assert !IsBlock(arenas, b, e);
      }
    }
  }

  lemma ListsGive(arenas: map<nat, Arena>, lists: seq<seq<nat>>, live: map<nat, nat>, b: nat, d: nat, c: nat)
    requires ListsOk(arenas, lists, live) && d < DESC_CNT && IsBlock(arenas, b, d) && b in live
    ensures ListsOk(arenas[PageOf(b) := Small(d, c)], lists[d := lists[d] + [b]], live - {b})
  {
    hide OnGrid, PageOf;
    var after := arenas[PageOf(b) := Small(d, c)];
    var lists' := lists[d := lists[d] + [b]];
    forall e | 0 <= e < DESC_CNT ensures ListOk(after, lists'[e], live - {b}, e) {
      assert ListOk(arenas, lists[e], live, e);
      forall x: nat ensures IsBlock(after, x, e) <==> IsBlock(arenas, x, e) {
      }
      if e == d {
        assert b !in lists[d];
      } else {
        assert !IsBlock(arenas, b, e);
      }
    }
  }

  lemma SevenLists(arenas: map<nat, Arena>, lists: seq<seq<nat>>, live: map<nat, nat>)
    requires ListsOk(arenas, lists, live)
    ensures |lists| == DESC_CNT
  {
  }

  /** sys_malloc takes the first block of the list. */
  lemma TakeBlock(arenas: map<nat, Arena>, lists: seq<seq<nat>>, live: map<nat, nat>, keys: set<nat>, idle: set<nat>,
                  d: nat, size: nat)
    requires HeapOk(arenas, lists, live, keys, idle) && d < DESC_CNT && lists[d] != [] && 1 <= size <= Size(d)
    requires idle <= {PageOf(lists[d][0])}
    ensures var b := lists[d][0];
            && IsBlock(arenas, b, d) && arenas[PageOf(b)].freeCnt >= 1 && b !in live
            && HeapOk(arenas[PageOf(b) := Small(d, arenas[PageOf(b)].freeCnt - 1)], lists[d := lists[d][1..]],
               live[b := size], keys, {})
  {
    hide PagesOk, ArenasOk, LiveOk, ListsOk, PageOf, OnGrid, Size;
    SevenLists(arenas, lists, live);
    ListedBlock(arenas, lists, live, keys, idle, d);
    var b := lists[d][0];
    var p := PageOf(b);
    PagesSame(arenas, keys, p, Small(d, arenas[p].freeCnt - 1));
    CountsTake(arenas, live, idle, b, d, size);
    LiveCount(arenas, live, p, arenas[p].freeCnt - 1);
    LiveMore(arenas[p := Small(d, arenas[p].freeCnt - 1)], live, b, size);
    ListsTake(arenas, lists, live, b, d, arenas[p].freeCnt - 1, size);
  }

  lemma LiveMore(arenas: map<nat, Arena>, live: map<nat, nat>, b: nat, size: nat)
    requires LiveOk(arenas, live) && Holds(arenas, b, size)
    ensures LiveOk(arenas, live[b := size])
  {
  }

  lemma LiveLess(arenas: map<nat, Arena>, live: map<nat, nat>, b: nat)
    requires LiveOk(arenas, live)
    ensures LiveOk(arenas, live - {b})
  {
  }

  /** sys_free puts a block at the end of its list. */
  lemma GiveBlock(arenas: map<nat, Arena>, lists: seq<seq<nat>>, live: map<nat, nat>, keys: set<nat>, b: nat, d: nat)
    requires HeapOk(arenas, lists, live, keys, {}) && d < DESC_CNT && IsBlock(arenas, b, d) && b in live
    ensures HeapOk(arenas[PageOf(b) := Small(d, arenas[PageOf(b)].freeCnt + 1)], lists[d := lists[d] + [b]],
            live - {b}, keys, {PageOf(b)})
  {
    hide PagesOk, ArenasOk, LiveOk, ListsOk, PageOf, OnGrid;
    var p := PageOf(b);
    PagesSame(arenas, keys, p, Small(d, arenas[p].freeCnt + 1));
    CountsGive(arenas, live, b, d);
    LiveCount(arenas, live, p, arenas[p].freeCnt + 1);
    LiveLess(arenas[p := Small(d, arenas[p].freeCnt + 1)], live, b);
    ListsGive(arenas, lists, live, b, d, arenas[p].freeCnt + 1);
  }

  // ---------------------------------------------------------------------------------------
  // An arena without live blocks goes.

  /** No live block in a page whose count is full. */
  lemma NoneLive(arenas: map<nat, Arena>, live: map<nat, nat>, p: nat, idle: set<nat>)
    requires ArenasOk(arenas, live, idle) && LiveOk(arenas, live) && p in arenas && arenas[p].Small?
    requires arenas[p].freeCnt == BlocksPerArena(arenas[p].desc)
    ensures forall b :: b in live ==> PageOf(b) != p
  {
    hide BlocksPerArena, OnGrid, PageOf;
    var d := arenas[p].desc;
    assert SmallOk(arenas[p], live.Keys, p, idle);
    CountFull(live.Keys, p, d, BlocksPerArena(d));
    forall b | b in live ensures PageOf(b) != p {
      assert Holds(arenas, b, live[b]);
      if PageOf(b) == p {
        var k := GridIndex(b, d);
      }
    }
  }

  lemma LiveElsewhere(arenas: map<nat, Arena>, live: map<nat, nat>, p: nat)
    requires LiveOk(arenas, live) && forall b :: b in live ==> PageOf(b) != p
    ensures LiveOk(arenas - {p}, live)
  {
    hide OnGrid, PageOf;
    forall b | b in live ensures Holds(arenas - {p}, b, live[b]) {
      assert Holds(arenas, b, live[b]);
    }
  }

  /** The arenas that stay. */
  lemma CountsStay(arenas: map<nat, Arena>, live: map<nat, nat>, p: nat)
    requires ArenasOk(arenas, live, {p})
    ensures ArenasOk(arenas - {p}, live, {})
  {
    hide BlocksPerArena;
    forall q | q in arenas - {p}
      ensures SmallOk((arenas - {p})[q], live.Keys, q, {})
              && ((arenas - {p})[q].Large? ==> q * PG_SIZE + HEADER in live)
    {
      assert SmallOk(arenas[q], live.Keys, q, {p});
    }
  }

  lemma ListsDrop(arenas: map<nat, Arena>, lists: seq<seq<nat>>, live: map<nat, nat>, p: nat, d: nat, list: seq<nat>)
    requires ListsOk(arenas, lists, live) && d < DESC_CNT && p in arenas && arenas[p].Small? && arenas[p].desc == d
    requires NoRepeat(list) && forall b :: b in list <==> b in lists[d] && PageOf(b) != p
    ensures ListsOk(arenas - {p}, lists[d := list], live)
  {
    hide OnGrid, PageOf;
    var lists' := lists[d := list];
    forall e | 0 <= e < DESC_CNT ensures ListOk(arenas - {p}, lists'[e], live, e) {
      assert ListOk(arenas, lists[e], live, e);
      forall x: nat ensures IsBlock(arenas - {p}, x, e) <==> IsBlock(arenas, x, e) && PageOf(x) != p {
      }
      if e != d {
        forall x: nat | PageOf(x) == p ensures !IsBlock(arenas, x, e) {
        }
      }
    }
  }

  /** sys_free gives the page of an idle arena back. */
  lemma DropSmall(arenas: map<nat, Arena>, lists: seq<seq<nat>>, live: map<nat, nat>, keys: set<nat>, p: nat, d: nat,
                  list: seq<nat>)
    requires HeapOk(arenas, lists, live, keys, {p}) && d < DESC_CNT && p in arenas && arenas[p].Small?
             && arenas[p].desc == d
    requires arenas[p].freeCnt == BlocksPerArena(d)
    requires NoRepeat(list) && forall b :: b in list <==> b in lists[d] && PageOf(b) != p
    ensures HeapOk(arenas - {p}, lists[d := list], live, keys - Range(p, 1), {})
  {
    hide PagesOk, ArenasOk, LiveOk, ListsOk, PageOf, BlocksPerArena, Range;
    PagesDrop(arenas, keys, p);
    NoneLive(arenas, live, p, {p});
    LiveElsewhere(arenas, live, p);
    CountsStay(arenas, live, p);
    ListsDrop(arenas, lists, live, p, d, list);
  }

  /** An arena that keeps a live block is not idle. */
  lemma StillUsed(arenas: map<nat, Arena>, lists: seq<seq<nat>>, live: map<nat, nat>, keys: set<nat>, p: nat, d: nat)
    requires HeapOk(arenas, lists, live, keys, {p}) && p in arenas && arenas[p].Small? && arenas[p].desc == d
    requires arenas[p].freeCnt != BlocksPerArena(d)
    ensures HeapOk(arenas, lists, live, keys, {})
  {
    hide PagesOk, LiveOk, ListsOk, BlocksPerArena;
    forall q | q in arenas
      ensures SmallOk(arenas[q], live.Keys, q, {}) && (arenas[q].Large? ==> q * PG_SIZE + HEADER in live)
    {
      assert SmallOk(arenas[q], live.Keys, q, {p});
      CountBound(live.Keys, p, d, BlocksPerArena(d));
    }
  }

  // ---------------------------------------------------------------------------------------
  // Large blocks.

  lemma LargeAddress(p: nat)
    ensures PageOf(p * PG_SIZE + HEADER) == p && (p * PG_SIZE + HEADER) % PG_SIZE == HEADER
  {
    InPage(p, HEADER);
  }

  lemma CountsLarge(arenas: map<nat, Arena>, live: map<nat, nat>, p: nat, n: nat, size: nat)
    requires ArenasOk(arenas, live, {}) && p !in arenas
    ensures ArenasOk(arenas[p := Large(n)], live[p * PG_SIZE + HEADER := size], {})
  {
    hide BlocksPerArena, PageOf;
    var after, b := arenas[p := Large(n)], p * PG_SIZE + HEADER;
    var live' := live[b := size];
    LargeAddress(p);
    assert live'.Keys == live.Keys + {b};
    forall q | q in after
      ensures SmallOk(after[q], live'.Keys, q, {}) && (after[q].Large? ==> q * PG_SIZE + HEADER in live')
    {
      if q != p {
        assert SmallOk(arenas[q], live.Keys, q, {});
        if arenas[q].Small? {
          CountElsewhere(live.Keys, q, arenas[q].desc, b);
        }
      }
    }
  }

  /** Blocks of other arenas are blocks as before. */
  lemma ListsLarge(arenas: map<nat, Arena>, lists: seq<seq<nat>>, live: map<nat, nat>, p: nat, n: nat, size: nat)
    requires ListsOk(arenas, lists, live) && p !in arenas
    ensures ListsOk(arenas[p := Large(n)], lists, live[p * PG_SIZE + HEADER := size])
  {
    hide OnGrid, PageOf;
    LargeAddress(p);
    forall e | 0 <= e < DESC_CNT
      ensures ListOk(arenas[p := Large(n)], lists[e], live[p * PG_SIZE + HEADER := size], e)
    {
      assert ListOk(arenas, lists[e], live, e);
      forall x: nat ensures IsBlock(arenas[p := Large(n)], x, e) <==> IsBlock(arenas, x, e) {
      }
      assert !IsBlock(arenas, p * PG_SIZE + HEADER, e);
    }
  }

  lemma AddLarge(arenas: map<nat, Arena>, lists: seq<seq<nat>>, live: map<nat, nat>, keys: set<nat>, p: nat, size: nat)
    requires HeapOk(arenas, lists, live, keys, {}) && size > LARGEST && keys !! Range(p, PageCount(size))
    ensures p * PG_SIZE + HEADER !in live
    ensures HeapOk(arenas[p := Large(PageCount(size))], lists, live[p * PG_SIZE + HEADER := size],
            keys + Range(p, PageCount(size)), {})
  {
    hide PagesOk, ArenasOk, LiveOk, ListsOk, PageOf, Range, PageCount;
    AtLeastOne(size);
    PagesAdd(arenas, keys, p, Large(PageCount(size)));
    NoLive(arenas, live, p);
    LargeAddress(p);
    CountsLarge(arenas, live, p, PageCount(size), size);
    LiveStays(arenas, live, p, Large(PageCount(size)));
    LiveMore(arenas[p := Large(PageCount(size))], live, p * PG_SIZE + HEADER, size);
    ListsLarge(arenas, lists, live, p, PageCount(size), size);
  }

  lemma AtLeastOne(size: nat)
    ensures PageCount(size) >= 1 && size + HEADER <= (PageCount(size) - 1) * PG_SIZE
  {
  }

  /** Only one address of a large arena is live. */
  lemma OnlyLarge(arenas: map<nat, Arena>, live: map<nat, nat>, p: nat)
    requires LiveOk(arenas, live) && p in arenas && arenas[p].Large?
    ensures forall b :: b in live && PageOf(b) == p ==> b == p * PG_SIZE + HEADER
  {
    hide OnGrid;
    forall b | b in live && PageOf(b) == p ensures b == p * PG_SIZE + HEADER {
      assert Holds(arenas, b, live[b]);
    }
  }

  lemma CountsDropLarge(arenas: map<nat, Arena>, live: map<nat, nat>, p: nat)
    requires ArenasOk(arenas, live, {}) && p in arenas
    ensures ArenasOk(arenas - {p}, live - {p * PG_SIZE + HEADER}, {})
  {
    hide BlocksPerArena, PageOf;
    var after, b := arenas - {p}, p * PG_SIZE + HEADER;
    var live' := live - {b};
    LargeAddress(p);
    assert live'.Keys == live.Keys - {b};
    forall q | q in after
      ensures SmallOk(after[q], live'.Keys, q, {}) && (after[q].Large? ==> q * PG_SIZE + HEADER in live')
    {
      assert SmallOk(arenas[q], live.Keys, q, {});
      if arenas[q].Small? {
        CountElsewhere(live.Keys, q, arenas[q].desc, b);
      } else {
        LargeElsewhere(q, b);
      }
    }
  }

  lemma ListsDropLarge(arenas: map<nat, Arena>, lists: seq<seq<nat>>, live: map<nat, nat>, p: nat)
    requires ListsOk(arenas, lists, live) && p in arenas && arenas[p].Large?
    ensures ListsOk(arenas - {p}, lists, live - {p * PG_SIZE + HEADER})
  {
    hide OnGrid, PageOf;
    LargeAddress(p);
    forall e | 0 <= e < DESC_CNT ensures ListOk(arenas - {p}, lists[e], live - {p * PG_SIZE + HEADER}, e) {
      assert ListOk(arenas, lists[e], live, e);
      forall x: nat ensures IsBlock(arenas - {p}, x, e) <==> IsBlock(arenas, x, e) {
      }
      assert !IsBlock(arenas, p * PG_SIZE + HEADER, e);
    }
  }

  /** sys_free of a large block. */
  lemma DropLarge(arenas: map<nat, Arena>, lists: seq<seq<nat>>, live: map<nat, nat>, keys: set<nat>, p: nat)
    requires HeapOk(arenas, lists, live, keys, {}) && p in arenas && arenas[p].Large?
    ensures HeapOk(arenas - {p}, lists, live - {p * PG_SIZE + HEADER}, keys - Range(p, arenas[p].pages), {})
  {
    hide PagesOk, ArenasOk, LiveOk, ListsOk, PageOf, Range;
    var b := p * PG_SIZE + HEADER;
    PagesDrop(arenas, keys, p);
    OnlyLarge(arenas, live, p);
    LiveLess(arenas, live, b);
    assert forall c :: c in live - {b} ==> PageOf(c) != p;
    LiveElsewhere(arenas, live - {b}, p);
    CountsDropLarge(arenas, live, p);
    ListsDropLarge(arenas, lists, live, p);
  }
}
