/** sync_dir_entry (src/fs/dir.c), with what it does behind the 12 direct blocks: it takes sector 0 of the
    disk for the indirect table that the directory does not have. */
module DirSpills {
  import opened Results
  import opened Bytes
  import opened Bitmaps
  import opened Blocks
  import opened Partitions
  import opened Files
  import opened DirTables
  import opened Directories

  /** One more entry in a directory of which all 252 places are taken: its size says so, no place does. */
  ghost predicate Spilled(fs: Fs, fs': Fs, d: nat) {
    && d in fs.inodes && fs'.inodes.Keys == fs.inodes.Keys && OverFull(fs', d)
    && forall i :: i in fs.inodes && i != d ==> fs'.inodes[i] == fs.inodes[i]
  }

  /** The size counts more entries than there are places. */
  ghost predicate OverFull(fs: Fs, d: nat) {
    d in fs.inodes && fs.inodes[d].size == REC * (PLACES + 1)
  }

  lemma SpilledOver(fs: Fs, fs': Fs, d: nat)
    requires Spilled(fs, fs', d)
    ensures OverFull(fs', d)
  {
  }

  /** Such a directory is none that the other operations can work with. */
  lemma OverFullIsBad(fs: Fs, d: nat)
    requires Sizes(fs) && OverFull(fs, d)
    ensures !DirOk(fs, d)
  {
    hide TableOk, BlockLive;
    LiveAtMost(Entries(fs, d));
  }

  lemma {:induction false} LiveAtMost(t: Table)
    ensures LiveCount(t) <= |t|
  {
    if t != [] {
      LiveAtMost(t[..|t| - 1]);
    }
  }

  lemma {:induction false} FullCount(t: Table)
    requires LiveBefore(t, |t|)
    ensures LiveCount(t) == |t|
  {
    if t != [] {
      FullCount(t[..|t| - 1]);
    }
  }

  lemma NoDead(t: Table)
    requires FirstDead(t).None?
    ensures LiveBefore(t, |t|)
  {
  }

  /** The record of a full directory. */
  lemma FullRecord(fs: Fs, d: nat)
    requires Sizes(fs) && DirOk(fs, d) && FirstDead(Entries(fs, d)).None?
    ensures |fs.inodes[d].sectors| == 13 && fs.inodes[d].sectors[12] == 0 && fs.inodes[d].size == REC * PLACES
  {
    hide TableOk, BlockLive, FirstDead, LiveCount;
    NoDead(Entries(fs, d));
    FullCount(Entries(fs, d));
  }

  /** What comes of the rounds behind the 12 direct blocks: the entry is stored; no place is found; too few
      blocks are free for a new one; a word names no sector. */
  datatype Fate = Stored | NoPlace | NoBlocks | NoSector

  /** Some record of the sector is dead. */
  ghost predicate HasDead(buf: Sector) {
    exists k: nat :: k < PER_BLOCK && !Live(RecAt(buf, k))
  }

  /** The walk along the words of sector 0 from word k on: the first that is 0, names no sector, or names one with
      a dead record decides. A block is taken for a word that is 0, and for the first one a table too. */
  ghost function FateFrom(disk: seq<Sector>, words: seq<Word>, k: nat, free: nat): Fate
    requires k <= |words|
    decreases |words| - k
  {
    if k == |words| then NoPlace
    else if words[k] == 0 then if free < (if k == 0 then 2 else 1) then NoBlocks else Stored
    else if words[k] >= |disk| then NoSector
    else if HasDead(disk[words[k]]) then Stored
    else FateFrom(disk, words, k + 1, free)
  }

  ghost function FateOf(fs: Fs): Fate
    requires |fs.disk| > 0
  {
    FateFrom(fs.disk, DecodeWords(fs.disk[0], WORDS), 0, ClearBits(fs.bits))
  }

  /** The walk goes on behind a word that names a sector with no dead record. */
  ghost predicate Passed(disk: seq<Sector>, w: Word) {
    0 < w < |disk| && !HasDead(disk[w])
  }

  /** The first word at which it does not go on decides. */
  lemma {:induction false} FateIs(disk: seq<Sector>, words: seq<Word>, k: nat, free: nat, j: nat)
    requires j <= k <= |words| && forall i :: j <= i < k ==> Passed(disk, words[i])
    requires k < |words| ==> !Passed(disk, words[k])
    ensures FateFrom(disk, words, j, free) ==
              if k == |words| then NoPlace
              else if words[k] >= |disk| && words[k] != 0 then NoSector
              else if words[k] == 0 && free < (if k == 0 then 2 else 1) then NoBlocks
              else Stored
    decreases k - j
  {
    hide HasDead;
    if j < k {
      FateIs(disk, words, k, free, j + 1);
    }
  }

  /** A word of sector 0 names no sector. */
  ghost predicate OffDisk(disk: seq<Sector>)
    requires |disk| > 0
  {
    exists k: nat :: k < WORDS && WordAt(disk[0], k) >= |disk|
  }

  lemma {:induction false} BadFate(disk: seq<Sector>, words: seq<Word>, k: nat, free: nat)
    requires k <= |words|
    ensures FateFrom(disk, words, k, free).NoBlocks? ==> free < 2
    ensures FateFrom(disk, words, k, free).NoSector? ==> exists j :: k <= j < |words| && words[j] >= |disk|
    decreases |words| - k
  {
    if k < |words| {
      BadFate(disk, words, k + 1, free);
    }
  }

  lemma HaltingFate(fs: Fs)
    requires |fs.disk| > 0
    ensures FateOf(fs).NoBlocks? ==> ClearBits(fs.bits) < 2
    ensures FateOf(fs).NoSector? ==> OffDisk(fs.disk)
  {
    hide ClearBits, WordAt, FateFrom;
    var words := DecodeWords(fs.disk[0], WORDS);
    BadFate(fs.disk, words, 0, ClearBits(fs.bits));
    if FateOf(fs).NoSector? {
      var j :| 0 <= j < |words| && words[j] >= |fs.disk|;
      assert words[j] == WordAt(fs.disk[0], j);
    }
  }

  /** In particular, with a sector 0 that begins with zeros and two free blocks the entry is stored. */
  lemma ZerosStore(fs: Fs)
    requires |fs.disk| > 0 && WordAt(fs.disk[0], 0) == 0 && ClearBits(fs.bits) >= 2
    ensures FateOf(fs) == Stored
  {
    hide ClearBits, WordAt;
  }

  predicate Meets<T>(r: Outcome<T>, fate: Fate) {
    && (r.Exhausted? <==> fate.NoBlocks?)
    && (r.AssertFailed? <==> fate.NoSector?)
  }

  /** sync_dir_entry. While a place of the 12 direct blocks is dead the entry takes the first one, in a block that
      the directory has or opens. Otherwise it spills: the code goes on by the words of sector 0, and if it
      puts the entry anywhere the directory is no good one any more. */
  method SyncDirEntry(part: Partition, d: nat, name: Name, ino: Word, kind: Word)
    returns (r: Outcome<bool>, spills: bool)
    requires part.Valid() && OwnInv(part.Model()) && DirOk(part.Model(), d)
             && MayInsert(part.Model(), d, name, ino, kind)
    modifies part, part.disk, part.blockBitmap.bits
    ensures part.Valid() && (r.Done? ==> part.inodes.Keys == old(part.inodes.Keys))
    ensures spills <==> FirstDead(old(Entries(part.Model(), d))).None?
    ensures r == Done(true) && !spills ==> Inserted(old(part.Model()), part.Model(), d, name, ino, kind)
    ensures r == Done(true) && !spills ==> d in part.inodes && part.inodes == old(part.inodes)[d := part.inodes[d]]
    ensures r == Done(true) && spills ==> Spilled(old(part.Model()), part.Model(), d)
    ensures r == Done(true) ==> (DirOk(part.Model(), d) <==> !spills)
    ensures r == Done(false) ==> spills && part.Model() == old(part.Model())
    ensures part.disk.Length > 0 && (spills ==> Meets(r, FateOf(old(part.Model()))))
    ensures spills && r.Done? ==> (r.value <==> FateOf(old(part.Model())).Stored?)
    ensures !spills ==> r == Done(true) || (r.Exhausted? && ClearBits(old(part.Model()).bits) == 0)
    ensures !spills ==> part.disk[0] == old(part.disk[0])
  {
    hide ClearBits, FateOf, Spilled, OwnInv, DirOk, Entries, FirstDead, Inserted, MayInsert, GoodName, Sizes, OverFull,
         MakeRec, Bitmap.Contents, Bitmap.Valid;
    ghost var fs := part.Model();
    DirIsThere(fs, d);
    MayFacts(fs, d, name, ino, kind);
    r := SyncDirect(part, d, name, ino, kind);
    spills := r == Done(false);
    if r.Done? && r.value {
      InsertedDir(fs, part.Model(), d, name, ino, kind);
    }
    if spills {
      FullRecord(fs, d);
      r := SpillOver(part, d, MakeRec(name, ino, kind));
      if r == Done(true) {
        SpilledOver(fs, part.Model(), d);
        OverFullIsBad(part.Model(), d);
      }
    }
  }

  lemma InsertedDir(fs: Fs, fs': Fs, d: nat, name: Name, ino: Word, kind: Word)
    requires OwnInv(fs) && DirOk(fs, d) && |name| <= 16 && Inserted(fs, fs', d, name, ino, kind)
    ensures OwnInv(fs') && DirOk(fs', d) && d in fs'.inodes && fs'.inodes.Keys == fs.inodes.Keys
    ensures fs'.inodes == fs.inodes[d := fs'.inodes[d]]
  {
    hide DirMap, Entries, FirstDead, MakeRec, OthersSame;
    ChangedKeys(fs, fs', d, Entries(fs, d)[FirstDead(Entries(fs, d)).value := MakeRec(name, ino, kind)]);
  }

  lemma ChangedKeys(fs: Fs, fs': Fs, d: nat, u: Table)
    requires OwnInv(fs) && DirChanged(fs, fs', d, u)
    ensures d in fs'.inodes && fs'.inodes.Keys == fs.inodes.Keys && fs'.inodes == fs.inodes[d := fs'.inodes[d]]
  {
    hide Slots, Entries, Exclusive, BitsMatch, DirShape;
  }

  /** The rounds behind the 12 direct blocks. A word that names no sector trips the ASSERT of the driver. */
  method SpillOver(part: Partition, d: nat, rec: Rec) returns (r: Outcome<bool>)
    requires part.Valid() && OwnInv(part.Model()) && d in part.inodes
    requires part.inodes[d].sectors[12] == 0 && part.inodes[d].size == REC * PLACES
    modifies part, part.disk, part.blockBitmap.bits
    ensures part.Valid() && part.inodes.Keys == old(part.inodes.Keys)
    ensures r == Done(true) ==> Spilled(old(part.Model()), part.Model(), d)
    ensures r == Done(false) ==> part.Model() == old(part.Model())
    ensures part.disk.Length > 0 && Meets(r, FateOf(old(part.Model())))
    ensures r.Done? ==> (r.value <==> FateOf(old(part.Model())).Stored?)
  {
    hide OwnInv, DecodeWords, PutRec, ZeroSector, RecAt, Live, FirstDeadIn, HasDead, ClearBits, Spilled,
         Bitmap.Contents, Bitmap.Valid;
    ghost var fs := part.Model();
    AllFreeOnDisk(fs);
    var table := part.IdeRead(part.inodes[d].sectors[12]);
    var all := DecodeWords(table, WORDS);
    var k := 0;
    while k < WORDS
      invariant 0 <= k <= WORDS && part.Valid() && part.Model() == fs
      invariant FateOf(fs) == FateFrom(fs.disk, all, k, ClearBits(fs.bits))
    {
      if all[k] == 0 {
        r := OpenSpill(part, d, k, all, rec);
        return;
      }
      if all[k] >= part.disk.Length {
        return AssertFailed;
      }
      var buf := part.IdeRead(all[k]);
      var dead := FindDead(buf);
      DeadFound(buf, dead);
      if dead.Some? {
        PutSpill(part, d, all[k], buf, dead.value, rec);
        return Done(true);
      }
      k := k + 1;
    }
    return Done(false);
  }

  lemma DeadFound(buf: Sector, r: Option<nat>)
    requires FirstDeadIn(buf, r)
    ensures r.Some? <==> HasDead(buf)
    ensures r.Some? ==> r.value < PER_BLOCK
  {
  }

  /** The record goes into a dead place of the sector, whatever that is. */
  method PutSpill(part: Partition, d: nat, lba: Word, buf: Sector, k: nat, rec: Rec)
    requires part.Valid() && d in part.inodes && lba < part.disk.Length && k < PER_BLOCK
    requires part.inodes[d].size == REC * PLACES
    modifies part`inodes, part.disk
    ensures part.Valid() && part.inodes.Keys == old(part.inodes.Keys) && Spilled(old(part.Model()), part.Model(), d)
  {
    hide PutRec, Bitmap.Contents, Bitmap.Valid;
    part.IdeWrite(lba, PutRec(buf, k, rec));
    part.SetInode(d, part.inodes[d].(size := part.inodes[d].size + REC));
  }

  /** Word k of the table is 0: a block is taken for it. For the first word a table is taken too; for another one
      the words, with the new block, go back to sector 0. */
  method OpenSpill(part: Partition, d: nat, k: nat, all: seq<Word>, rec: Rec) returns (r: Outcome<bool>)
    requires part.Valid() && OwnInv(part.Model()) && d in part.inodes && k < WORDS == |all|
    requires part.inodes[d].sectors[12] == 0 && part.inodes[d].size == REC * PLACES
    modifies part, part.disk, part.blockBitmap.bits
    ensures part.Valid() && part.inodes.Keys == old(part.inodes.Keys)
    ensures r == Done(true) ==> Spilled(old(part.Model()), part.Model(), d)
    ensures r.Exhausted? <==> ClearBits(old(part.Model()).bits) < if k == 0 then 2 else 1
    ensures !r.Exhausted? ==> r == Done(true)
  {
    hide OwnInv, EncodeWords, PutRec, ZeroSector, ClearBits, Bitmap.Contents, Bitmap.Valid;
    ghost var bits := part.Model().bits;
    AllFreeOnDisk(part.Model());
    var lba :- part.BlockBitmapAlloc();
    if k == 0 {
      part.SetInode(d, part.inodes[d].(sectors := part.inodes[d].sectors[12 := lba]));
      var first :- part.BlockBitmapAlloc();
      part.IdeWrite(part.inodes[d].sectors[12], EncodeWords(all[0 := first]));
      part.IdeWrite(first, PutRec(ZeroSector(), 0, rec));
    } else {
      part.IdeWrite(part.inodes[d].sectors[12], EncodeWords(all[k := lba]));
      part.IdeWrite(lba, PutRec(ZeroSector(), 0, rec));
    }
    part.SetInode(d, part.inodes[d].(size := part.inodes[d].size + REC));
    return Done(true);
  }

  lemma AllFreeOnDisk(fs: Fs)
    requires OwnInv(fs)
    ensures |fs.disk| > 0 && forall b :: 0 <= b < |fs.bits| && !fs.bits[b] ==> fs.start + b < |fs.disk|
  {
    hide Exclusive, Reaches;
  }
}
