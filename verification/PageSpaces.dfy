/** Page allocation for the kernel heap: vaddr_get, malloc_page, vaddr_remove and mfree_page
    (src/kernel/memory.c), over the bitmap of virtual pages, the bitmap of the frame pool and the
    sharer counts. */
module PageSpaces {
  import opened Results
  import opened Bitmaps
  import opened Sets

  /** What was there before the heap took its first page. vbits: the bitmap of virtual pages, with the bit behind
      it, at which the search looks too. */
  datatype Base = Base(vbits: seq<bool>, pbits: seq<bool>, mem: seq<nat>)

  /** Pages of the heap and their frames: nothing of the base, no frame twice. */
  ghost predicate MapOk(base: Base, pte: map<nat, nat>) {
    && |base.mem| == |base.pbits|
    && (forall i :: i in pte ==> i < |base.vbits| && !base.vbits[i])
    && (forall i :: i in pte ==> pte[i] < |base.pbits| && !base.pbits[pte[i]] && base.mem[pte[i]] == 0)
    && (forall i, j :: i in pte && j in pte && pte[i] == pte[j] ==> i == j)
  }

  ghost predicate HasFrame(pte: map<nat, nat>, f: nat) {
    exists i :: i in pte && pte[i] == f
  }

  /** The three tables say: base, and the heap's pages and frames; taken are virtual pages that
      have no frame yet, or no longer. */
  ghost predicate TablesSay(base: Base, pte: map<nat, nat>, taken: set<nat>, vbits: seq<bool>, pbits: seq<bool>,
                            mem: seq<nat>) {
    && |vbits| == |base.vbits| && |pbits| == |base.pbits| == |mem| == |base.mem|
    && (forall i :: 0 <= i < |vbits| ==> (vbits[i] <==> base.vbits[i] || i in pte || i in taken))
    && (forall f :: 0 <= f < |pbits| ==> (pbits[f] <==> base.pbits[f] || HasFrame(pte, f)))
    && (forall f :: 0 <= f < |mem| ==> mem[f] == if HasFrame(pte, f) then 1 else base.mem[f])
  }

  /** Mapping one taken page to a free frame. */
  lemma MapOne(base: Base, pte: map<nat, nat>, taken: set<nat>, vbits: seq<bool>, pbits: seq<bool>, mem: seq<nat>,
               i: nat, f: nat)
    requires MapOk(base, pte) && TablesSay(base, pte, taken, vbits, pbits, mem)
    requires i in taken && i !in pte && i < |base.vbits| && !base.vbits[i]
    requires f < |pbits| && !pbits[f] && base.mem[f] == 0
    ensures MapOk(base, pte[i := f]) && TablesSay(base, pte[i := f], taken - {i}, vbits, pbits[f := true], mem[f := 1])
  {
    var pte' := pte[i := f];
    forall g ensures HasFrame(pte', g) <==> HasFrame(pte, g) || g == f {
      if HasFrame(pte, g) {
        var j :| j in pte && pte[j] == g;
        assert j in pte' && pte'[j] == g;
      }
      if g == f {
        assert i in pte' && pte'[i] == f;
      }
    }
    assert !HasFrame(pte, f);
    forall j | j in pte ensures pte[j] != f {
      assert HasFrame(pte, pte[j]);
    }
  }

  /** Taking the frame of a page away again. */
  lemma UnmapOne(base: Base, pte: map<nat, nat>, taken: set<nat>, vbits: seq<bool>, pbits: seq<bool>, mem: seq<nat>,
                 i: nat)
    requires MapOk(base, pte) && TablesSay(base, pte, taken, vbits, pbits, mem) && i in pte
    ensures pte[i] < |pbits| && mem[pte[i]] == 1
    ensures MapOk(base, pte - {i})
    ensures TablesSay(base, pte - {i}, taken + {i}, vbits, pbits[pte[i] := false], mem[pte[i] := 0])
  {
    var pte' := pte - {i};
    assert HasFrame(pte, pte[i]);
    forall g ensures HasFrame(pte', g) <==> HasFrame(pte, g) && g != pte[i] {
      if HasFrame(pte, g) && g != pte[i] {
        var j :| j in pte && pte[j] == g;
        assert j in pte' && pte'[j] == g;
      }
    }
  }

  lemma TakeOne(base: Base, pte: map<nat, nat>, taken: set<nat>, vbits: seq<bool>, pbits: seq<bool>, mem: seq<nat>,
                i: nat)
    requires TablesSay(base, pte, taken, vbits, pbits, mem) && i < |vbits|
    ensures TablesSay(base, pte, taken + {i}, vbits[i := true], pbits, mem)
  {
  }

  lemma GiveOne(base: Base, pte: map<nat, nat>, taken: set<nat>, vbits: seq<bool>, pbits: seq<bool>, mem: seq<nat>,
                i: nat)
    requires TablesSay(base, pte, taken, vbits, pbits, mem) && i in taken && i !in pte && i < |vbits| && !base.vbits[i]
    ensures TablesSay(base, pte, taken - {i}, vbits[i := false], pbits, mem)
  {
  }

  /** Without heap pages everything is as it was before. */
  lemma NothingLeft(base: Base, vbits: seq<bool>, pbits: seq<bool>, mem: seq<nat>)
    requires TablesSay(base, map[], {}, vbits, pbits, mem) && |base.mem| == |base.pbits|
    ensures vbits == base.vbits && pbits == base.pbits && mem == base.mem
  {
    assert forall f :: !HasFrame(map[], f);
  }

  class PageSpace {
    const vaddrBitmap: Bitmap
    const pool: Bitmap
    var mem: seq<nat>
    var pte: map<nat, nat>     // present entries: page to frame
    ghost const base: Base

    constructor (vaddrBitmap: Bitmap, pool: Bitmap, mem: seq<nat>)
      requires vaddrBitmap.Valid() && pool.Valid() && vaddrBitmap.bits != pool.bits && |mem| == |pool.Contents()|
      requires forall f :: 0 <= f < |mem| && !pool.Contents()[f] ==> mem[f] == 0
      ensures this.vaddrBitmap == vaddrBitmap && this.pool == pool && this.mem == mem && pte == map[]
      ensures base == Base(vaddrBitmap.Window(), pool.Contents(), mem)
      ensures Valid()
    {
      this.vaddrBitmap, this.pool, this.mem, this.pte := vaddrBitmap, pool, mem, map[];
      this.base := Base(vaddrBitmap.Window(), pool.Contents(), mem);
      new;
      assert forall f :: !HasFrame(pte, f);
    }

    /** The parts are there, and frames that were free have no users. */
    ghost predicate Wired()
      reads this, vaddrBitmap.bits, pool.bits
    {
      && vaddrBitmap.Valid() && pool.Valid() && vaddrBitmap.bits != pool.bits
      && (forall f :: 0 <= f < |base.pbits| && !base.pbits[f] && f < |base.mem| ==> base.mem[f] == 0)
    }

    /** All tables agree, but for taken pages. */
    ghost predicate Agrees(taken: set<nat>)
      requires vaddrBitmap.Valid() && pool.Valid()
      reads this, vaddrBitmap.bits, pool.bits
    {
      MapOk(base, pte) && TablesSay(base, pte, taken, vaddrBitmap.Window(), pool.Contents(), mem)
    }

    ghost predicate Valid()
      reads this, vaddrBitmap.bits, pool.bits
    {
      Wired() && Agrees({})
    }

    /** All virtual pages of the map are taken. */
    ghost predicate MapFull()
      requires vaddrBitmap.Valid()
      reads vaddrBitmap.bits
    {
      forall i :: 0 <= i < 8 * vaddrBitmap.len ==> vaddrBitmap.Window()[i]
    }

    ghost predicate HasRun(cnt: nat)
      requires vaddrBitmap.Valid()
      reads vaddrBitmap.bits
    {
      exists s :: ClearRun(vaddrBitmap.Window(), s, cnt)
    }

    /** There is no room for cnt pages in a way that halts: the map is full, or there is a run of virtual pages but
        fewer frames than that are free. */
    ghost predicate OutOfMemory(cnt: nat)
      requires vaddrBitmap.Valid() && pool.Valid()
      reads vaddrBitmap.bits, pool.bits
    {
      MapFull() || (HasRun(cnt) && ClearBits(pool.Contents()) < cnt)
    }

    /** vaddr_get: the least run of free bits in the map and the bit behind it, which the search takes for a page
        too; none exactly when there is no such run. It halts exactly on a full map. */
    method VaddrGet(cnt: nat) returns (r: Outcome<Option<nat>>)
      requires Valid() && cnt >= 1
      modifies vaddrBitmap.bits
      ensures Wired() && !r.AssertFailed?
      ensures r.Exhausted? <==> old(MapFull())
      ensures r.Exhausted? ==> MapFull()
      ensures r == Done(None) ==> vaddrBitmap.Window() == old(vaddrBitmap.Window())
      ensures r == Done(None) ==> Valid() && forall s :: !ClearRun(vaddrBitmap.Window(), s, cnt)
      ensures r.Done? && r.value.Some? ==>
                && LeastRun(old(vaddrBitmap.Window()), r.value.value, cnt)
                && Agrees(Range(r.value.value, cnt)) && Unmapped(base, pte, r.value.value, cnt)
    {
      hide Bitmap.Contents, Bitmap.Window, MapOk, TablesSay, Range, LeastRun;
      ghost var w := vaddrBitmap.Window();
      var s := vaddrBitmap.Scan(cnt);
      ScanFound(vaddrBitmap.Contents(), w, cnt, s);
      if s.Halts? {
        return Exhausted;
      }
      if s.start < 0 {
        return Done(None);
      }
      var start := s.start;
      RunIsFree(base, pte, w, pool.Contents(), mem, start, cnt);
      NoRange(start);
      var k := 0;
      while k < cnt
        invariant 0 <= k <= cnt && Wired() && Agrees(Range(start, k))
      {
        TakeOne(base, pte, Range(start, k), vaddrBitmap.Window(), pool.Contents(), mem, start + k);
        RangeMore(start, k);
        vaddrBitmap.Set(start + k, true);
        k := k + 1;
      }
      return Done(Some(start));
    }

    /** palloc of a frame of the pool, for the taken page i, and page_table_add. */
    method MapPage(i: nat, ghost taken: set<nat>) returns (r: Outcome<nat>)
      requires Wired() && Agrees(taken) && i in taken && i !in pte && i < |base.vbits| && !base.vbits[i]
      modifies this, pool.bits
      ensures Wired() && !r.AssertFailed?
      ensures r.Done? ==> pte == old(pte)[i := r.value] && Agrees(taken - {i})
      ensures r.Exhausted? <==> ClearBits(old(pool.Contents())) == 0
      ensures r.Exhausted? ==> ClearBits(pool.Contents()) == 0
      ensures r.Done? ==> ClearBits(old(pool.Contents())) == ClearBits(pool.Contents()) + 1
    {
      hide ClearBits, Bitmap.Contents, Bitmap.Window, MapOk, TablesSay;
      var s := pool.Scan(1);
      if s.Halts? {
        NoneFree(pool.Contents());
        return Exhausted;
      }
      var f := s.start;
      FreeAfterSet(pool.Contents(), f);
      FreeFrame(base, pte, taken, vaddrBitmap.Window(), pool.Contents(), mem, f);
      MapOne(base, pte, taken, vaddrBitmap.Window(), pool.Contents(), mem, i, f);
      pool.Set(f, true);
      mem := mem[f := 1];
      if i in pte {
        return AssertFailed;
      }
      pte := pte[i := f];
      return Done(f);
    }

    /** malloc_page: first fit. NULL exactly when no run of virtual pages is free; it asserts 0 < cnt < 3840. */
    method MallocPage(cnt: nat) returns (r: Outcome<Option<nat>>)
      requires Valid()
      modifies this, vaddrBitmap.bits, pool.bits
      ensures r.AssertFailed? <==> !(0 < cnt < 3840)
      ensures Wired() && (r.Done? ==> Valid())
      ensures r.Exhausted? <==> 0 < cnt < 3840 && old(OutOfMemory(cnt))
      ensures r.Exhausted? ==> MapFull() || ClearBits(pool.Contents()) == 0
      ensures r == Done(None) ==> vaddrBitmap.Window() == old(vaddrBitmap.Window())
      ensures r == Done(None) ==> pte == old(pte) && forall s :: !ClearRun(vaddrBitmap.Window(), s, cnt)
      ensures r.Done? && r.value.Some? ==> LeastRun(old(vaddrBitmap.Window()), r.value.value, cnt)
      ensures r.Done? && r.value.Some? ==>
                && pte.Keys == old(pte).Keys + Range(r.value.value, cnt) && old(pte).Keys !! Range(r.value.value, cnt)
                && forall i :: i in old(pte) ==> pte[i] == old(pte)[i]
    {
      hide ClearBits, MapFull, LeastRun, Bitmap.Contents, Bitmap.Window, Bitmap.Valid, MapOk, TablesSay, Range, Grown,
           Unmapped;
      if !(0 < cnt < 3840) {
        return AssertFailed;
      }
      var got :- VaddrGet(cnt);
      if got.None? {
        return Done(None);
      }
      var p := got.value;
      LeastIsRun(old(vaddrBitmap.Window()), p, cnt);
      ghost var was := pte;
      NothingGrown(was, p);
      var k := 0;
      while k < cnt
        invariant 0 <= k <= cnt && Wired() && Agrees(Range(p + k, cnt - k)) && Grown(was, pte, p, k)
        invariant Unmapped(base, was, p, cnt)
        invariant ClearBits(pool.Contents()) + k == ClearBits(old(pool.Contents()))
      {
        NextPage(base, was, pte, p, k, cnt);
        ghost var before := pte;
        var f :- MapPage(p + k, Range(p + k, cnt - k));
        GrownMore(was, before, p, k, f);
        k := k + 1;
      }
      NoRange(p + cnt);
      GrownFacts(was, pte, p, cnt);
      NoneBefore(base, was, p, cnt);
      return Done(Some(p));
    }

    /** free_a_phy_page and page_table_pte_remove of one page; it asserts that the frame has one user. */
    method UnmapPage(i: nat, ghost taken: set<nat>) returns (ok: bool)
      requires Wired() && Agrees(taken) && i in pte
      modifies this, pool.bits
      ensures ok && Wired() && pte == old(pte) - {i} && Agrees(taken + {i})
    {
      hide Bitmap.Contents, Bitmap.Window, MapOk, TablesSay;
      UnmapOne(base, pte, taken, vaddrBitmap.Window(), pool.Contents(), mem, i);
      var f := pte[i];
      SameLengths(base, pte, taken, vaddrBitmap.Window(), pool.Contents(), mem);
      if mem[f] != 1 {
        return false;
      }
      pool.Set(f, false);
      mem := mem[f := 0];
      pte := pte - {i};
      return true;
    }

    /** mfree_page: first the frames, then the virtual pages. */
    method MfreePage(p: nat, cnt: nat) returns (ok: bool)
      requires Valid() && cnt >= 1 && Range(p, cnt) <= pte.Keys
      modifies this, vaddrBitmap.bits, pool.bits
      ensures ok && Valid() && pte == old(pte) - Range(p, cnt)
    {
      hide Bitmap.Contents, Bitmap.Window, Bitmap.Valid, MapOk, TablesSay, Range;
      RangeFacts(p, cnt);
      NoRange(p);
      MappedInside(base, pte, Range(p, cnt));
      var k := 0;
      while k < cnt
        invariant 0 <= k <= cnt && Wired() && Agrees(Range(p, k)) && pte == old(pte) - Range(p, k)
      {
        RangeFacts(p, k);
        RangeMore(p, k);
        ghost var was := pte;
        ok := UnmapPage(p + k, Range(p, k));
        if !ok {
          return;
        }
        assert was - {p + k} == old(pte) - (Range(p, k) + {p + k});
        k := k + 1;
      }
      k := 0;
      while k < cnt
        invariant 0 <= k <= cnt && Wired() && Agrees(Range(p + k, cnt - k)) && pte == old(pte) - Range(p, cnt)
      {
        RangeFacts(p + k, cnt - k);
        RangeSplit(p + k, cnt - k);
        RangeFacts(p + k + 1, cnt - k - 1);
        assert Range(p + k, cnt - k) - {p + k} == Range(p + k + 1, cnt - k - 1);
        GivePage(p + k, Range(p + k, cnt - k));
        k := k + 1;
      }
      NoRange(p + cnt);
      return true;
    }

    /** One virtual page goes back. */
    method GivePage(i: nat, ghost taken: set<nat>)
      requires Wired() && Agrees(taken) && i in taken && i !in pte && i < |base.vbits| && !base.vbits[i]
      modifies vaddrBitmap.bits
      ensures Wired() && Agrees(taken - {i})
    {
      hide Bitmap.Contents, Bitmap.Window, MapOk, TablesSay;
      SameLengths(base, pte, taken, vaddrBitmap.Window(), pool.Contents(), mem);
      GiveOne(base, pte, taken, vaddrBitmap.Window(), pool.Contents(), mem, i);
      vaddrBitmap.Set(i, false);
    }
  }

  /** Pages p .. p + n - 1 are inside the map, were free before the heap and have no frame. */
  ghost predicate Unmapped(base: Base, pte: map<nat, nat>, p: nat, n: nat) {
    p + n <= |base.vbits| && forall i :: p <= i < p + n ==> i !in pte && !base.vbits[i]
  }

  /** pte is was with pages p .. p + k - 1 more. */
  ghost predicate Grown(was: map<nat, nat>, pte: map<nat, nat>, p: nat, k: nat) {
    pte.Keys == was.Keys + Range(p, k) && forall i :: i in was ==> pte[i] == was[i]
  }

  lemma NothingGrown(was: map<nat, nat>, p: nat)
    ensures Grown(was, was, p, 0)
  {
  }

  lemma GrownFacts(was: map<nat, nat>, pte: map<nat, nat>, p: nat, k: nat)
    requires Grown(was, pte, p, k)
    ensures pte.Keys == was.Keys + Range(p, k) && forall i :: i in was ==> pte[i] == was[i]
  {
  }

  lemma NoneBefore(base: Base, was: map<nat, nat>, p: nat, n: nat)
    requires Unmapped(base, was, p, n)
    ensures was.Keys !! Range(p, n)
  {
    RangeFacts(p, n);
  }

  lemma NextPage(base: Base, was: map<nat, nat>, pte: map<nat, nat>, p: nat, k: nat, cnt: nat)
    requires Grown(was, pte, p, k) && k < cnt && Unmapped(base, was, p, cnt)
    ensures p + k < |base.vbits| && !base.vbits[p + k]
    ensures p + k in Range(p, cnt) && p + k in Range(p + k, cnt - k) && p + k !in pte
    ensures Range(p + k, cnt - k) - {p + k} == Range(p + (k + 1), cnt - (k + 1))
  {
    hide Range;
    RangeFacts(p, k);
    RangeFacts(p, cnt);
    RangeFacts(p + k, cnt - k);
    RangeFacts(p + (k + 1), cnt - (k + 1));
  }

  lemma GrownMore(was: map<nat, nat>, pte: map<nat, nat>, p: nat, k: nat, f: nat)
    requires Grown(was, pte, p, k) && p + k !in pte
    ensures Grown(was, pte[p + k := f], p, k + 1)
  {
    hide Range;
    RangeMore(p, k);
    assert pte[p + k := f].Keys == pte.Keys + {p + k};
  }

  lemma LeastIsRun(w: seq<bool>, s: int, cnt: nat)
    requires LeastRun(w, s, cnt)
    ensures exists t :: ClearRun(w, t, cnt)
  {
  }

  /** What the search finds is the least run of map and window, and it finds one iff there is one. */
  lemma ScanFound(v: seq<bool>, w: seq<bool>, cnt: nat, s: ScanResult)
    requires |w| == |v| + 1 && w[..|v|] == v && cnt >= 1
    requires s.Halts? <==> forall i :: 0 <= i < |v| ==> v[i]
    requires s.Scanned? && cnt == 1 ==> LeastRun(v, s.start, 1)
    requires s.Scanned? && cnt > 1 && s.start >= 0 ==> LeastRun(w, s.start, cnt)
    requires s.Scanned? && cnt > 1 && s.start < 0 ==> s.start == -1 && forall t :: 0 <= t <= |v| + 1 ==>
             !ClearRun(w, t, cnt)
    ensures s.Halts? <==> forall i :: 0 <= i < |v| ==> w[i]
    ensures s.Scanned? && s.start >= 0 ==> LeastRun(w, s.start, cnt) && ClearRun(w, s.start, cnt)
    ensures s.Scanned? && s.start < 0 ==> forall t :: !ClearRun(w, t, cnt)
  {
    assert forall k :: 0 <= k < |v| ==> v[k] == w[k];
    if s.Scanned? && cnt == 1 {
      assert ClearRun(v, s.start, 1);
      assert forall t :: 0 <= t < |v| ==> (ClearRun(w, t, 1) <==> ClearRun(v, t, 1));
    }
  }

  lemma RunIsFree(base: Base, pte: map<nat, nat>, vbits: seq<bool>, pbits: seq<bool>, mem: seq<nat>, start: nat,
                  cnt: nat)
    requires TablesSay(base, pte, {}, vbits, pbits, mem) && ClearRun(vbits, start, cnt)
    ensures Unmapped(base, pte, start, cnt) && start + cnt <= |vbits|
  {
  }

  lemma FreeFrame(base: Base, pte: map<nat, nat>, taken: set<nat>, vbits: seq<bool>, pbits: seq<bool>, mem: seq<nat>,
                  f: int)
    requires TablesSay(base, pte, taken, vbits, pbits, mem) && LeastRun(pbits, f, 1)
    requires forall g :: 0 <= g < |base.pbits| && !base.pbits[g] && g < |base.mem| ==> base.mem[g] == 0
    ensures 0 <= f < |pbits| && !pbits[f] && f < |base.mem| && base.mem[f] == 0 && f < |mem|
  {
    assert ClearRun(pbits, f, 1);
  }

  lemma SameLengths(base: Base, pte: map<nat, nat>, taken: set<nat>, vbits: seq<bool>, pbits: seq<bool>, mem: seq<nat>)
    requires TablesSay(base, pte, taken, vbits, pbits, mem)
    ensures |vbits| == |base.vbits| && |pbits| == |base.pbits| == |mem|
  {
  }

  lemma MappedInside(base: Base, pte: map<nat, nat>, r: set<nat>)
    requires MapOk(base, pte) && r <= pte.Keys
    ensures forall i :: i in r ==> i < |base.vbits| && !base.vbits[i]
  {
  }
}
