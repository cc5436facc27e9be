/** Model of inode_release (src/fs/inode.c): all blocks of an inode go back to the bitmap. */
module Releasing {
  import opened Results
  import opened Bytes
  import opened Bitmaps
  import opened Blocks
  import opened Partitions
  import opened Files
  import opened Directories
  import opened Volumes

  /** bits is bits0 with the blocks of the list cleared. */
  ghost predicate Freed(start: nat, bits0: seq<bool>, bits: seq<bool>, list: seq<Word>) {
    && |bits| == |bits0|
    && forall b :: 0 <= b < |bits| ==> bits[b] == (bits0[b] && start + b !in list)
  }

  lemma FreedMore(start: nat, bits0: seq<bool>, bits: seq<bool>, list: seq<Word>, lba: Word)
    requires Freed(start, bits0, bits, list)
    requires lba == 0 || start <= lba < start + |bits|
    requires start > 0
    ensures Freed(start, bits0, if lba == 0 then bits else bits[lba - start := false], list + [lba])
  {
  }

  /** One block, unless the slot is empty. The first block is the root directory's. */
  method FreeSlot(part: Partition, lba: Word, ghost bits0: seq<bool>, ghost list: seq<Word>) returns (r: Outcome<()>)
    requires part.Valid() && (lba == 0 || part.start < lba < part.start + |part.Model().bits|)
    requires Freed(part.start, bits0, part.Model().bits, list)
    modifies part.blockBitmap.bits
    ensures part.Valid() && r.Done? && part.Model() == old(part.Model()).(bits := part.Model().bits)
    ensures Freed(part.start, bits0, part.Model().bits, list + [lba])
  {
    hide Freed, Bitmap.Contents, Bitmap.Valid;
    FreedMore(part.start, bits0, part.Model().bits, list, lba);
    if lba != 0 {
      if lba - part.start <= 0 {
        return AssertFailed;
      }
      part.FreeBlock(lba);
    }
    return Done(());
  }

  /** A slot of an inode other than the root is empty or holds a block behind the first. */
  lemma SlotBehindFirst(fs: Fs, c: nat, a: Word)
    requires OwnInv(fs) && RootDir(fs) && c in fs.inodes && c != 0 && a in Own(fs)[c]
    ensures a == 0 || fs.start < a < fs.start + |fs.bits|
  {
    hide BitsMatch, Slots;
    var k :| 0 <= k < |Own(fs)[c]| && Own(fs)[c][k] == a;
    if a != 0 {
      assert Own(fs)[0][0] == fs.start;
      HeldIsUsable(fs, c, k);
    }
  }

  /** The list holds the blocks of the inode, and nothing else but zeros. */
  ghost predicate Covers(fs: Fs, c: nat, list: seq<Word>)
    requires Sizes(fs) && c in fs.inodes
  {
    && (forall a :: a in list ==> a == 0 || a in Own(fs)[c])
    && (forall a :: a in Own(fs)[c] ==> a == 0 || a in list)
  }

  lemma ListedBehindFirst(fs: Fs, c: nat, list: seq<Word>, k: nat)
    requires OwnInv(fs) && RootDir(fs) && c in fs.inodes && c != 0 && Covers(fs, c, list) && k < |list|
    ensures list[k] == 0 || fs.start < list[k] < fs.start + |fs.bits|
  {
    hide OwnInv, RootDir, Own;
    if list[k] != 0 {
      assert list[k] in list;
      SlotBehindFirst(fs, c, list[k]);
    }
  }

  /** The first part of inode_release: collect the addresses, the table's own first. */
  method AllBlocks(part: Partition, c: nat) returns (list: seq<Word>)
    requires part.Valid() && OwnInv(part.Model()) && c in part.inodes
    ensures |list| >= 1 && Covers(part.Model(), c, list)
  {
    hide OwnInv, Own, Sizes, Bitmap.Contents, Bitmap.Valid;
    ghost var fs := part.Model();
    SlotsKnown(fs, c);
    var sectors := part.inodes[c].sectors;
    var allBlocks := sectors[..DIRECT];
    if sectors[12] != 0 {
      allBlocks := allBlocks + DecodeWords(part.disk[sectors[12]], WORDS);
    }
    list := [sectors[12]] + allBlocks;
  }

  /** inode_release: exactly the blocks of the inode become free, and the record goes; no ASSERT
      fires. */
  method InodeRelease(part: Partition, c: nat) returns (r: Outcome<()>)
    requires part.Valid() && OwnInv(part.Model()) && RootDir(part.Model()) && c in part.inodes && c != 0
    modifies part`inodes, part.blockBitmap.bits
    ensures part.Valid() && r.Done? && Released(old(part.Model()), part.Model(), c)
  {
    hide OwnInv, RootDir, Own, Freed, Covers, Released, Bitmap.Contents, Bitmap.Valid;
    ghost var fs := part.Model();
    var list := AllBlocks(part, c);
    NothingFreed(fs.start, fs.bits);
    assert list[..0] == [];
    var blockIdx := 0;
    while blockIdx < |list|
      invariant 0 <= blockIdx <= |list| && part.Valid() && part.Model() == fs.(bits := part.Model().bits)
      invariant Freed(fs.start, fs.bits, part.Model().bits, list[..blockIdx])
    {
      ListedBehindFirst(fs, c, list, blockIdx);
      FreedLength(fs.start, fs.bits, part.Model().bits, list[..blockIdx]);
      var freed := FreeSlot(part, list[blockIdx], fs.bits, list[..blockIdx]);
      if freed.AssertFailed? {
        return AssertFailed;
      }
      assert list[..blockIdx] + [list[blockIdx]] == list[..blockIdx + 1];
      blockIdx := blockIdx + 1;
    }
    assert list[..|list|] == list;
    ReleasedBy(fs, c, part.Model().bits, list);
    GoneSizes(part.Model(), c);
    part.inodes := part.inodes - {c};
    return Done(());
  }

  lemma GoneSizes(fs: Fs, c: nat)
    requires Sizes(fs)
    ensures Sizes(fs.(inodes := fs.inodes - {c}))
  {
  }

  lemma FreedLength(start: nat, bits0: seq<bool>, bits: seq<bool>, list: seq<Word>)
    requires Freed(start, bits0, bits, list)
    ensures |bits| == |bits0|
  {
  }

  lemma NothingFreed(start: nat, bits: seq<bool>)
    ensures Freed(start, bits, bits, [])
  {
  }

  /** The slots of an inode, in the order of its record and its table. */
  lemma SlotsKnown(fs: Fs, c: nat)
    requires OwnInv(fs) && c in fs.inodes
    ensures |fs.inodes[c].sectors| == 13 && c in Own(fs)
    ensures var s := fs.inodes[c].sectors;
            && (forall k :: 0 <= k < 13 ==> s[k] in Own(fs)[c])
            && s[12] < |fs.disk|
            && (s[12] != 0 ==> forall a :: a in DecodeWords(fs.disk[s[12]], WORDS) ==> a in Own(fs)[c])
            && (s[12] == 0 ==> forall a :: a in Own(fs)[c] ==> a == 0 || a in s[..DIRECT])
            && (s[12] != 0 ==> forall a :: a in Own(fs)[c] ==>
               a in [s[12]] + (s[..DIRECT] + DecodeWords(fs.disk[s[12]], WORDS)))
  {
    hide Exclusive, BitsMatch, RootDir;
    var s, own := fs.inodes[c].sectors, Own(fs)[c];
    var ws := TableWords(fs.disk, s[12]);
    assert own == s + ws;
    OwnSector(fs, c, 12);
    if s[12] != 0 {
      HeldIsUsable(fs, c, 12);
    }
    forall k | 0 <= k < 13 ensures s[k] in own {
      assert own[k] == s[k];
    }
    forall a | a in ws ensures a in own {
      var k :| 0 <= k < WORDS && ws[k] == a;
      assert own[13 + k] == a;
    }
    forall a | a in own ensures a in ws || a in s[..DIRECT] || a == s[12] {
      var k :| 0 <= k < |own| && own[k] == a;
      if k < DIRECT {
        assert s[..DIRECT][k] == a;
      } else if k > 12 {
        assert ws[k - 13] == a;
      }
    }
  }

  lemma ReleasedBy(fs: Fs, c: nat, bits: seq<bool>, list: seq<Word>)
    requires Sizes(fs) && c in fs.inodes && Freed(fs.start, fs.bits, bits, list) && Covers(fs, c, list)
    ensures Released(fs, fs.(bits := bits, inodes := fs.inodes - {c}), c)
  {
    hide Slots;
  }
}
