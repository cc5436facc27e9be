/** Model of dir_read, dir_is_empty and the assertion of dir_remove (src/fs/dir.c): enumerating a
    directory and knowing when it is empty. */
module DirReading {
  import opened Results
  import opened Bytes
  import opened Bitmaps
  import opened Blocks
  import opened Partitions
  import opened DirTables
  import opened Directories

  /** An open directory with its read position. */
  class Dir {
    const inode: nat
    var pos: nat

    constructor (inode: nat)
      ensures this.inode == inode && pos == 0
    {
      this.inode, pos := inode, 0;
    }
  }

  /** Live entries before place p. */
  ghost function Before(fs: Fs, d: nat, p: nat): nat
    requires Sizes(fs) && d in fs.inodes && p <= PLACES
  {
    LiveCount(Entries(fs, d)[..p])
  }

  lemma BeforeNext(fs: Fs, d: nat, p: nat)
    requires Sizes(fs) && d in fs.inodes && p < PLACES
    ensures Before(fs, d, p + 1) == Before(fs, d, p) + if Live(Entries(fs, d)[p]) then 1 else 0
  {
    hide LiveCount, Live;
    CountPrefix(Entries(fs, d), p);
  }

  lemma BeforeEnds(fs: Fs, d: nat)
    requires Sizes(fs) && d in fs.inodes
    ensures Before(fs, d, 0) == 0 && Before(fs, d, PLACES) == LiveCount(Entries(fs, d))
  {
    assert Entries(fs, d)[..0] == [];
    assert Entries(fs, d)[..PLACES] == Entries(fs, d);
  }

  /** The entry that dir_read returns at position 24 n. */
  ghost predicate NthEntry(fs: Fs, d: nat, n: nat, r: Rec)
    requires Sizes(fs) && d in fs.inodes
  {
    n < LiveCount(Entries(fs, d)) && r == LiveList(Entries(fs, d))[n]
  }

  lemma LiveAt(fs: Fs, d: nat, p: nat)
    requires Sizes(fs) && d in fs.inodes && p < PLACES && Live(Entries(fs, d)[p])
    ensures NthEntry(fs, d, Before(fs, d, p), Entries(fs, d)[p])
  {
    hide Live;
    var t := Entries(fs, d);
    CountPrefix(t, p);
    ListPrefix(t, p + 1);
    var n := LiveCount(t[..p]);
    assert LiveList(t[..p + 1])[n] == t[p];
  }

  /** An entry-free stretch leaves the count as it is. */
  lemma NothingIn(fs: Fs, d: nat, b: nat, k: nat)
    requires Sizes(fs) && d in fs.inodes && b < BLOCKS && fs.inodes[d].sectors[b] == 0 && k <= PER_BLOCK
    ensures Before(fs, d, PER_BLOCK * b + k) == Before(fs, d, PER_BLOCK * b)
  {
    hide Entries, Before, Live;
    if k > 0 {
      NothingIn(fs, d, b, k - 1);
      DeadBlock(fs, d, b, PER_BLOCK * b + k - 1);
      BeforeNext(fs, d, PER_BLOCK * b + k - 1);
    }
  }

  /** One sector of dir_read: skip the live entries before the position, stop at the next one. It
      asserts that the count then is the position. */
  method ReadBlock(part: Partition, d: nat, b: nat, cur0: nat, pos: nat, ghost n: nat)
    returns (r: Outcome<Option<Rec>>, cur: nat)
    requires part.Valid() && OwnInv(part.Model()) && DirOk(part.Model(), d) && b < BLOCKS
    requires 0 < part.inodes[d].sectors[b] < part.disk.Length && pos == REC * n
    requires cur0 == REC * Before(part.Model(), d, PER_BLOCK * b) && cur0 <= pos
    ensures r.Done?
    ensures r.value.Some? ==> NthEntry(part.Model(), d, n, r.value.value)
    ensures r.value.None? ==> cur == REC * Before(part.Model(), d, PER_BLOCK * (b + 1)) && cur <= pos
  {
    hide OwnInv, DirOk, Sizes, Entries, Before, Live, RecAt, NthEntry, Bitmap.Contents, Bitmap.Valid;
    ghost var fs := part.Model();
    DirIsThere(fs, d);
    var buf := part.IdeRead(part.inodes[d].sectors[b]);
    assert buf == fs.disk[fs.inodes[d].sectors[b]];
    cur := cur0;
    var dirEntryIdx := 0;
    while dirEntryIdx < PER_BLOCK
      invariant 0 <= dirEntryIdx <= PER_BLOCK
      invariant cur == REC * Before(fs, d, PER_BLOCK * b + dirEntryIdx) && cur <= pos
    {
      var e := RecAt(buf, dirEntryIdx);
      BlockEntries(fs, d, b, dirEntryIdx);
      BeforeNext(fs, d, PER_BLOCK * b + dirEntryIdx);
      if Live(e) {
        if cur < pos {
          cur := cur + REC;
        } else {
          if cur != pos {
            return AssertFailed, cur;
          }
          LiveAt(fs, d, PER_BLOCK * b + dirEntryIdx);
          return Done(Some(e)), cur;
        }
      }
      dirEntryIdx := dirEntryIdx + 1;
    }
    return Done(None), cur;
  }

  /** The count has not reached the end, so there is a block left to look at. */
  lemma BlockLeft(fs: Fs, d: nat, b: nat, pos: nat)
    requires Sizes(fs) && DirOk(fs, d) && b <= BLOCKS
    requires REC * Before(fs, d, PER_BLOCK * b) <= pos < fs.inodes[d].size
    ensures b < BLOCKS
  {
    hide Entries, Before, Sizes;
    DirFacts(fs, d);
    BeforeEnds(fs, d);
  }

  /** dir_read. The n-th call after a rewind returns the n-th live entry in the order of the blocks,
      the next one NULL; it never looks behind the last block. */
  method DirRead(part: Partition, dir: Dir, ghost n: nat) returns (r: Outcome<Option<Rec>>)
    requires part.Valid() && OwnInv(part.Model()) && DirOk(part.Model(), dir.inode) && dir.pos == REC * n
    modifies dir
    ensures r.Done?
    ensures match r.value
            case Some(e) => NthEntry(part.Model(), dir.inode, n, e) && dir.pos == REC * (n + 1)
            case None => n >= LiveCount(Entries(part.Model(), dir.inode)) && dir.pos == REC * n
  {
    hide OwnInv, DirOk, Sizes, Entries, Before, NthEntry, LiveCount, Bitmap.Contents, Bitmap.Valid;
    ghost var fs := part.Model();
    var d := dir.inode;
    DirFacts(fs, d);
    BeforeEnds(fs, d);
    var blockIdx := 0;
    var cur := 0;
    while dir.pos < part.inodes[d].size
      invariant blockIdx <= BLOCKS && dir.pos == REC * n
      invariant cur == REC * Before(fs, d, PER_BLOCK * blockIdx) && cur <= dir.pos
      decreases BLOCKS - blockIdx
    {
      BlockLeft(fs, d, blockIdx, dir.pos);
      if part.inodes[d].sectors[blockIdx] == 0 {
        NothingIn(fs, d, blockIdx, PER_BLOCK);
      } else {
        SectorOnDisk(fs, d, blockIdx);
        var found;
        found, cur := ReadBlock(part, d, blockIdx, cur, dir.pos, n);
        if found.AssertFailed? {
          return AssertFailed;
        }
        if found.value.Some? {
          dir.pos := dir.pos + REC;
          return found;
        }
      }
      blockIdx := blockIdx + 1;
    }
    return Done(None);
  }

  /** Reading a directory from the start until NULL gives its live entries, in order, all of them. */
  method ReadAll(part: Partition, dir: Dir) returns (all: seq<Rec>)
    requires part.Valid() && OwnInv(part.Model()) && DirOk(part.Model(), dir.inode)
    modifies dir
    ensures all == LiveList(Entries(part.Model(), dir.inode))
  {
    hide OwnInv, DirOk, Sizes, Entries, LiveCount, LiveList, Bitmap.Contents, Bitmap.Valid;
    DirIsThere(part.Model(), dir.inode);
    ghost var t := Entries(part.Model(), dir.inode);
    dir.pos := 0;
    all := [];
    while true
      invariant dir.pos == REC * |all| && |all| <= LiveCount(t) && all == LiveList(t)[..|all|]
      decreases LiveCount(t) - |all|
    {
      var r := DirRead(part, dir, |all|);
      match r.value {
        case None => return;
        case Some(e) =>
          assert NthEntry(part.Model(), dir.inode, |all|, e);
          assert LiveList(t)[..|all| + 1] == all + [e];
          all := all + [e];
      }
    }
  }

  // ---------------------------------------------------------------------------------------
  // Empty directories.

  /** dir_is_empty. */
  method DirIsEmpty(part: Partition, d: nat) returns (empty: bool)
    requires part.Valid() && DirOk(part.Model(), d)
    ensures empty <==> DirMap(part.Model(), d).Keys == {DOT, DOTDOT}
  {
    hide DirOk, DirMap, Sizes, Bitmap.Contents, Bitmap.Valid;
    DirIsThere(part.Model(), d);
    EmptyIffTwo(part.Model(), d);
    empty := part.inodes[d].size == REC * 2;
  }

  lemma EmptyIffTwo(fs: Fs, d: nat)
    requires Sizes(fs) && DirOk(fs, d)
    ensures fs.inodes[d].size == REC * 2 <==> DirMap(fs, d).Keys == {DOT, DOTDOT}
  {
    hide Entries, LiveCount, Live, Listing;
    DirFacts(fs, d);
    TwoIffDots(Entries(fs, d), d);
    DotsIffKeys(Entries(fs, d), d);
  }

  /** Only the two dots are live. */
  ghost predicate OnlyDots(t: Table)
    requires |t| == PLACES
  {
    forall p :: 2 <= p < PLACES ==> !Live(t[p])
  }

  lemma DotsIffKeys(t: Table, d: Word)
    requires TableOk(t, d)
    ensures OnlyDots(t) <==> Listing(t).Keys == {DOT, DOTDOT}
  {
    hide Listing, Live, NameOf, NameIs, Ino;
    NameIsNameOf(t[0], DOT);
    NameIsNameOf(t[1], DOTDOT);
    ListingAt(t, d, 0);
    ListingAt(t, d, 1);
    if OnlyDots(t) {
      forall n | n in Listing(t) ensures n in {DOT, DOTDOT} {
        var p := ListingFrom(t, n);
      }
    } else {
      var p :| 2 <= p < PLACES && Live(t[p]);
      ListingAt(t, d, p);
      assert NameOf(t[p]) !in {DOT, DOTDOT};
    }
  }

  lemma TwoIffDots(t: Table, d: Word)
    requires TableOk(t, d)
    ensures LiveCount(t) == 2 <==> OnlyDots(t)
  {
    hide Live, NameIs, GoodName, NameOf, Ino;
    assert t[..2][..1][..0] == [];
    CountPrefix(t, 0);
    CountPrefix(t, 1);
    assert t[..0] == [];
    assert LiveCount(t[..2]) == 2;
    assert t[..PLACES] == t;
    if OnlyDots(t) {
      NoneMore(t, PLACES);
    } else {
      var p :| 2 <= p < PLACES && Live(t[p]);
      CountGrows(t, 2, p);
      CountPrefix(t, p);
      CountGrows(t, p + 1, PLACES);
    }
  }

  lemma {:induction false} NoneMore(t: Table, n: nat)
    requires 2 <= n <= |t| && LiveCount(t[..2]) == 2 && forall p :: 2 <= p < |t| ==> !Live(t[p])
    ensures LiveCount(t[..n]) == 2
  {
    if n > 2 {
      NoneMore(t, n - 1);
      CountPrefix(t, n - 1);
    }
  }

  lemma {:induction false} CountGrows(t: Table, m: nat, n: nat)
    requires m <= n <= |t|
    ensures LiveCount(t[..m]) <= LiveCount(t[..n])
  {
    if m < n {
      CountGrows(t, m, n - 1);
      CountPrefix(t, n - 1);
    }
  }

  /** dir_remove asserts that an empty directory has no block but the first: it holds, since every
      other block has an entry. */
  method AssertOneBlock(part: Partition, d: nat) returns (r: Outcome<()>)
    requires part.Valid() && DirOk(part.Model(), d) && DirMap(part.Model(), d).Keys == {DOT, DOTDOT}
    ensures r.Done?
  {
    hide DirOk, DirMap, Sizes, Bitmap.Contents, Bitmap.Valid;
    DirIsThere(part.Model(), d);
    var blockIdx := 1;
    while blockIdx < BLOCKS
      invariant 1 <= blockIdx <= BLOCKS
    {
      EmptyHasNoMore(part.Model(), d, blockIdx);
      if part.inodes[d].sectors[blockIdx] != 0 {
        return AssertFailed;
      }
      blockIdx := blockIdx + 1;
    }
    return Done(());
  }

  lemma EmptyHasNoMore(fs: Fs, d: nat, b: nat)
    requires Sizes(fs) && DirOk(fs, d) && 1 <= b < BLOCKS && DirMap(fs, d).Keys == {DOT, DOTDOT}
    ensures fs.inodes[d].sectors[b] == 0
  {
    hide Entries, TableOk, Listing, LiveCount, Live;
    DotsIffKeys(Entries(fs, d), d);
    NoBlockWithout(fs, d, b);
  }

  lemma NoBlockWithout(fs: Fs, d: nat, b: nat)
    requires Sizes(fs) && DirOk(fs, d) && 1 <= b < BLOCKS && !BlockLive(Entries(fs, d), b)
    ensures fs.inodes[d].sectors[b] == 0
  {
  }
}
