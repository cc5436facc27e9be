/** The mounted file system: file_create, sys_mkdir, sys_unlink, sys_rmdir, file_write on inodes, and
    what every sequence of them keeps. */
module FileSystem {
  import opened Results
  import opened Bytes
  import opened Bitmaps
  import opened Blocks
  import opened Partitions
  import opened Files
  import opened DirTables
  import opened Directories
  import opened DirSpills
  import opened DirReading
  import opened Paths
  import opened Trees
  import opened Volumes
  import opened Releasing

  const INODES: nat := 4096
  const LOW: nat := 256       // inode_sync keeps 8 bits of an inode number

  /** Bit i of the inode bitmap is set iff inode i is in use. */
  ghost predicate InodeBits(bits: seq<bool>, used: set<nat>) {
    && |bits| == INODES
    && (forall i :: 0 <= i < INODES ==> (bits[i] <==> i in used))
    && (forall i :: i in used ==> i < INODES)
  }

  ghost predicate LowFree(used: set<nat>) {
    exists i :: 0 <= i < LOW && i !in used
  }

  class Volume {
    const part: Partition
    const inodeBitmap: Bitmap
    ghost var dirs: set<nat>
    ghost var depth: map<nat, nat>

    constructor (part: Partition, inodeBitmap: Bitmap, ghost dirs: set<nat>, ghost depth: map<nat, nat>)
      ensures this.part == part && this.inodeBitmap == inodeBitmap && this.dirs == dirs && this.depth == depth
    {
      this.part, this.inodeBitmap, this.dirs, this.depth := part, inodeBitmap, dirs, depth;
    }

    ghost predicate Wired()
      reads this, part, part.disk, part.blockBitmap.bits, inodeBitmap.bits
    {
      && part.Valid() && inodeBitmap.Valid()
      && inodeBitmap.bits != part.blockBitmap.bits && inodeBitmap.bits as object != part.disk
    }

    ghost function Now(): Vol
      requires part.blockBitmap.Valid()
      reads this, part, part.disk, part.blockBitmap.bits
    {
      Vol(part.Model(), dirs, depth)
    }

    /** What every operation keeps. */
    ghost predicate Valid()
      reads this, part, part.disk, part.blockBitmap.bits, inodeBitmap.bits
    {
      Wired() && Good(Now()) && InodeBits(inodeBitmap.Contents(), part.inodes.Keys)
    }

    /** inode_bitmap_alloc: the first free inode number. */
    method InodeBitmapAlloc() returns (r: Outcome<Word>)
      requires Wired() && InodeBits(inodeBitmap.Contents(), part.inodes.Keys) && LowFree(part.inodes.Keys)
      modifies inodeBitmap.bits
      ensures Wired() && part.Model() == old(part.Model())
      ensures r.Done? && r.value < LOW && r.value !in part.inodes
      ensures forall i :: 0 <= i < r.value ==> i in part.inodes
      ensures InodeBits(inodeBitmap.Contents(), part.inodes.Keys + {r.value})
    {
      hide Bitmap.Contents, Partition.Model, Sizes;
      ghost var c := inodeBitmap.Contents();
      var s := inodeBitmap.Scan(1);
      ghost var j := SomeLowClear(c, part.inodes.Keys);
      assert !inodeBitmap.Contents()[j];
      match s {
        case Halts =>
          return Exhausted;
        case Scanned(i) =>
          FirstIsLow(c, part.inodes.Keys, i);
          inodeBitmap.Set(i, true);
          BitTaken(c, part.inodes.Keys, i);
          return Done(i);
      }
    }

    /** A number goes back. */
    method FreeInode(c: Word)
      requires Wired() && c < INODES && c !in part.inodes && InodeBits(inodeBitmap.Contents(), part.inodes.Keys + {c})
      modifies inodeBitmap.bits
      ensures Wired() && part.Model() == old(part.Model())
      ensures InodeBits(inodeBitmap.Contents(), part.inodes.Keys)
    {
      hide Bitmap.Contents, Partition.Model, Sizes;
      ghost var bits := inodeBitmap.Contents();
      inodeBitmap.Set(c, false);
      BitGiven(bits, part.inodes.Keys, c);
    }

    /** file_create in directory d. Without a free slot in the file table the inode number is given back
        and nothing happened. In a full directory the entry spills: then the volume stays good iff the entry
        found no place at all, and nothing happened. */
    method Create(d: nat, name: Name, slotFree: bool) returns (r: Outcome<Option<Word>>, spills: bool)
      requires Valid() && d in dirs && LowFree(part.inodes.Keys)
      requires GoodName(name) && Plain(name) && name !in Shape(Now()).dirs[d]
      modifies part, part.disk, part.blockBitmap.bits, inodeBitmap.bits
      ensures spills <==> slotFree && FirstDead(old(Entries(part.Model(), d))).None?
      ensures r.AssertFailed? ==> spills
      ensures part.disk.Length > 0 && (spills ==> Meets(r, FateOf(old(part.Model()))))
      ensures spills && r.Done? ==> (r.value.Some? <==> FateOf(old(part.Model())).Stored?)
      ensures Halting(r, old(part.Model()), 1, FirstDead(old(Entries(part.Model(), d))).None?)
      ensures r.Done? && !spills ==> part.disk[0] == old(part.disk[0])
      ensures r.Done? ==> Wired() && (Valid() <==> !spills || r.value.None?)
      ensures r.Done? && r.value.None? ==> Now() == old(Now()) && (!slotFree || spills)
      ensures r.Done? && r.value.Some? ==> slotFree && r.value.value !in old(part.inodes)
      ensures r.Done? && r.value.Some? && !spills ==> Created(old(Now()), Now(), d, name, r.value.value)
      ensures r.Done? && r.value.Some? && !spills ==>
                d in part.inodes
                  && part.inodes == old(part.inodes)[d := part.inodes[d]][r.value.value := Inode(0, NoSectors())]
    {
      hide OffDisk, FateOf, ClearBits, Good, Shape, GoodName, Plain, Entries, OwnInv, DirOk, MayInsert, MayAdd,
           Inserted, Created, LowFree, InodeBits, Sizes, FirstDead, OverFull, NoSectors, Bitmap.Contents, Bitmap.Valid;
      ghost var v := Now();
      DirOfVol(v, d);
      StartPositive(v.fs);
      var number := InodeBitmapAlloc();
      var c := number.value;
      assert Now() == v;
      if !slotFree {
        FreeInode(c);
        return Done(None), false;
      }
      AddIntoDir(v, d, name, c, FT_REGULAR);
      var put;
      put, spills := SyncDirEntry(part, d, name, c, FT_REGULAR);
      HaltingFate(v.fs);
      if !put.Done? {
        return put.PropagateFailure(), spills;
      }
      if !put.value {
        FreeInode(c);
        return Done(None), spills;
      }
      ghost var w := Now();
      part.SetInode(c, Inode(0, NoSectors()));
      if spills {
        OverFullStays(w.fs, d, c, Inode(0, NoSectors()));
        SpilledVol(Now(), d);
      } else {
        CreatedNow(v, w, d, name, c);
      }
      return Done(Some(c)), spills;
    }

    /** sys_mkdir behind the path search: a new directory in directory d. In a full directory the entry
        spills; if it found no place the block and the inode number are given back. */
    method Mkdir(d: nat, name: Name) returns (r: Outcome<Option<Word>>, spills: bool)
      requires Valid() && d in dirs && LowFree(part.inodes.Keys)
      requires GoodName(name) && Plain(name) && name !in Shape(Now()).dirs[d]
      modifies this, part, part.disk, part.blockBitmap.bits, inodeBitmap.bits
      ensures r.Done? ==> (spills <==> FirstDead(old(Entries(part.Model(), d))).None?)
      ensures r.AssertFailed? ==> spills
      ensures Halting(r, old(part.Model()), 2, FirstDead(old(Entries(part.Model(), d))).None?)
      ensures part.disk.Length > 0 && WordAt(old(part.disk[0]), 0) == 0 && ClearBits(old(part.Model()).bits) >= 3 ==>
                r.Done? && (FirstDead(old(Entries(part.Model(), d))).None? ==> r.value.Some?)
      ensures r.Done? ==> Wired() && (Valid() <==> !spills || r.value.None?)
      ensures r.Done? && r.value.None? ==> Unseen(old(Now()), Now()) && spills
      ensures r.Done? && r.value.Some? ==> r.value.value !in old(part.inodes)
      ensures r.Done? && r.value.Some? && !spills ==> MadeDir(old(Now()), Now(), d, name, r.value.value)
    {
      hide FateOf, ClearBits, OffDisk, Good, Shape, GoodName, Plain, Entries, OwnInv, DirOk, MayInsert, MayAdd,
           Inserted, MadeDir, Unseen, LowFree, InodeBits, Sizes, RootDir, FirstDead, OverFull, WithDir, HalfMade,
           Bitmap.Contents, Bitmap.Valid;
      ghost var v := Now();
      DirOfVol(v, d);
      StartPositive(v.fs);
      var number := InodeBitmapAlloc();
      var c := number.value;
      AddIntoDir(v, d, name, c, FT_DIRECTORY);
      var block := NewDirBlock(part, c, d, v);
      if !block.Done? {
        return Exhausted, false;
      }
      var lba := block.value;
      ghost var fs1 := part.Model();
      HalfOfVol(v, fs1, d, name, c);
      var put;
      put, spills := SyncDirEntry(part, d, name, c, FT_DIRECTORY);
      MadeRoom(v.fs, fs1, c, d, lba);
      if !put.Done? {
        return put.PropagateFailure(), spills;
      }
      if !put.value {
        DropNewDir(part, c, d, lba, v);
        FreeInode(c);
        return Done(None), spills;
      }
      if spills {
        SpilledVol(Vol(part.Model(), dirs + {c}, depth), d);
        dirs := dirs + {c};
      } else {
        MadeDirNow(v, fs1, part.Model(), d, name, c);
        dirs, depth := dirs + {c}, depth[c := depth[d] + 1];
      }
      return Done(Some(c)), spills;
    }

    /** sys_unlink behind the path search: file c leaves directory d, and its blocks are free. */
    method Unlink(d: nat, c: Word, ghost n: Name) returns (r: Outcome<()>)
      requires Valid() && d in dirs && MayDrop(Shape(Now()), d, n) && Shape(Now()).dirs[d][n] == Item(c, FT_REGULAR)
      modifies part, part.disk, part.blockBitmap.bits, inodeBitmap.bits
      ensures r.Done? && Valid() && Unlinked(old(Now()), Now(), d, n)
    {
      hide Good, Shape, OwnInv, DirOk, EntryOf, Deleted, Removal, Released, MayDrop, Unlinked, NoEntryBefore, InodeBits,
           Sizes, RootDir, Bitmap.Contents, Bitmap.Valid;
      ghost var v := Now();
      DirOfVol(v, d);
      var deleted := DeleteDirEntry(part, d, c);
      if deleted.AssertFailed? {
        return AssertFailed;
      }
      var found := deleted.value;
      ghost var fs1 := part.Model();
      ghost var p := EntryGone(v, fs1, d, n, c, found);
      FileGone(v, d, n, c);
      ghost var used := part.inodes.Keys;
      var released := InodeRelease(part, c);
      if released.AssertFailed? {
        return AssertFailed;
      }
      UnlinkedNow(v, fs1, Now(), d, n, c, p);
      assert part.inodes.Keys + {c} == used;
      NumberInRange(inodeBitmap.Contents(), used, c);
      FreeInode(c);
      return Done(());
    }

    /** sys_rmdir behind the path search, and dir_remove: the empty directory c leaves directory d.
        self: the path ended in a dot entry. If that is ".", the search took c for its own parent,
        and c's inode is released although the real parent lists it. */
    method Rmdir(d: nat, c: Word, ghost n: Name, ghost self: bool) returns (r: Outcome<bool>)
      requires Valid() && d in dirs && c in dirs && c != 0
      requires if self then d == c || Shape(Now()).dirs[c].Keys != {DOT, DOTDOT}
               else MayDrop(Shape(Now()), d, n) && Shape(Now()).dirs[d][n] == Item(c, FT_DIRECTORY)
      modifies this, part, part.disk, part.blockBitmap.bits, inodeBitmap.bits
      ensures r.Done? && Wired() && (!r.value || !self ==> Valid())
      ensures r.value <==> old(Shape(Now())).dirs[c].Keys == {DOT, DOTDOT}
      ensures !r.value ==> Now() == old(Now())
      ensures r.value && !self ==> RemovedDir(old(Now()), Now(), d, n)
      ensures r.value && self ==> Dangling(Now(), c)
    {
      hide Good, Shape, OwnInv, DirOk, DirMap, EntryOf, Deleted, Removal, Released, MayDrop, RemovedDir, NoEntryBefore,
           InodeBits, Sizes, RootDir, Dangling, Bitmap.Contents, Bitmap.Valid;
      ghost var v := Now();
      DirOfVol(v, d);
      DirOfVol(v, c);
      var empty := DirIsEmpty(part, c);
      if !empty {
        return Done(false);
      }
      var single := AssertOneBlock(part, c);
      if single.AssertFailed? {
        return AssertFailed;
      }
      var deleted := DeleteDirEntry(part, d, c);
      if deleted.AssertFailed? {
        return AssertFailed;
      }
      var found := deleted.value;
      ghost var fs1 := part.Model();
      ghost var p: nat := 0;
      if self {
        NotInItself(v, fs1, c, found);
      } else {
        p := EntryGone(v, fs1, d, n, c, found);
        DirGone(v, d, n, c);
      }
      ghost var used := part.inodes.Keys;
      var released := InodeRelease(part, c);
      if released.AssertFailed? {
        return AssertFailed;
      }
      if self {
        SelfRemoved(v, part.Model(), c);
      } else {
        RemovedNow(v, fs1, part.Model(), d, n, c, p);
      }
      assert part.inodes.Keys + {c} == used;
      NumberInRange(inodeBitmap.Contents(), used, c);
      dirs, depth := dirs - {c}, depth - {c};
      FreeInode(c);
      return Done(true);
    }

    /** file_write on an open file. */
    method Write(file: File, buf: seq<Byte>) returns (r: Outcome<Reply>)
      requires Valid() && file.inode in part.inodes && file.inode !in dirs && |buf| < 0xC000_0000
      modifies part, part.disk, part.blockBitmap.bits, file
      ensures r.Done? ==> Valid()
      ensures r.AssertFailed? <==>
                && old(part.inodes[file.inode].size) + |buf| == MAX_BYTES
                && ClearBits(old(part.Model()).bits) >= ToTake(old(part.inodes[file.inode]), |buf|)
      ensures r.Exhausted? <==>
                && old(part.inodes[file.inode].size) + |buf| <= MAX_BYTES
                && ClearBits(old(part.Model()).bits) < ToTake(old(part.inodes[file.inode]), |buf|)
      ensures r == Done(Refused) <==> old(part.inodes[file.inode].size) + |buf| > MAX_BYTES
      ensures r == Done(Refused) ==> Now() == old(Now())
      ensures r.Done? && r.value.Count? ==> r.value.n == |buf| && Wrote(old(Now()), Now(), file.inode, buf)
    {
      hide ClearBits, ToTake, Good, OwnInv, RootDir, FileOk, Appended, Wrote, InodeBits, Sizes, Bitmap.Contents,
           Bitmap.Valid;
      ghost var v := Now();
      FileOfVol(v, file.inode);
      r := FileWrite(part, file, buf);
      if r.Done? && r.value.Count? {
        WroteNow(v, part.Model(), file.inode, buf);
      }
    }
  }

  /** A volume with a directory into which an entry spilled is not good. */
  lemma SpilledVol(v: Vol, d: nat)
    requires Sizes(v.fs) && d in v.dirs && OverFull(v.fs, d)
    ensures !Good(v)
  {
    hide OwnInv, RootDir, TreeInv, DirOk, DirMap;
    OverFullIsBad(v.fs, d);
  }

  lemma OverFullStays(fs: Fs, d: nat, c: nat, ino: Inode)
    requires OverFull(fs, d) && c != d
    ensures OverFull(fs.(inodes := fs.inodes[c := ino]), d)
  {
  }

  lemma SizesOfVol(v: Vol)
    requires Good(v)
    ensures Sizes(v.fs) && |v.fs.disk| > 0
  {
    hide VolInv, Sizes;
    VolFacts(v.fs, v.dirs, v.depth);
    StartPositive(v.fs);
  }

  lemma DirOfVol(v: Vol, d: nat)
    requires Good(v) && d in v.dirs
    ensures Sizes(v.fs) && OwnInv(v.fs) && d in v.fs.inodes && DirOk(v.fs, d)
    ensures d in Shape(v).dirs && Shape(v).dirs[d] == DirMap(v.fs, d)
  {
    hide OwnInv, RootDir, ShapesOk, TreeInv, DirOk, DirMap;
    VolFacts(v.fs, v.dirs, v.depth);
    TreeDir(v.fs, v.dirs, v.depth, d);
  }

  /** A free name and a free inode number may go into the directory. */
  lemma AddIntoDir(v: Vol, d: nat, name: Name, c: Word, kind: Word)
    requires Good(v) && d in v.dirs && Sizes(v.fs) && d in Shape(v).dirs && name !in Shape(v).dirs[d]
    requires GoodName(name) && Plain(name) && c !in v.fs.inodes && kind != FT_UNKNOWN
    ensures |name| <= 15 && d < 0x1_0000_0000 && d in v.fs.inodes
    ensures MayAdd(Shape(v), d, name, c) && MayInsert(v.fs, d, name, c, kind)
  {
    hide VolInv, OwnInv, RootDir, ShapesOk, DirOk, DirMap, MayInsert, GoodName, Dots, AllFit, Once, AllListed, Depths,
         Names;
    ShortName(name);
    VolFacts(v.fs, v.dirs, v.depth);
    TreeDir(v.fs, v.dirs, v.depth, d);
    DirFacts(v.fs, d);
    MayInsertFrom(v.fs, v.dirs, v.depth, d, name, c, kind);
  }

  lemma CreatedNow(v: Vol, w: Vol, d: nat, name: Name, c: Word)
    requires Good(v) && OwnInv(v.fs) && DirOk(v.fs, d) && d in v.dirs && |name| <= 15
    requires MayAdd(Shape(v), d, name, c) && c !in v.fs.inodes && w.dirs == v.dirs && w.depth == v.depth
    requires Inserted(v.fs, w.fs, d, name, c, FT_REGULAR)
    ensures var u := w.(fs := w.fs.(inodes := w.fs.inodes[c := Inode(0, NoSectors())]));
            Good(u) && Created(v, u, d, name, c) && u.fs.inodes.Keys == v.fs.inodes.Keys + {c}
  {
    hide VolInv, OwnInv, RootDir, ShapesOk, TreeInv, Inserted, DirOk, MayAdd, AddFile, FilesKept, Contents, NoSectors;
    VolFacts(v.fs, v.dirs, v.depth);
    CreateKeeps(v.fs, w.fs, v.dirs, v.depth, d, name, c);
    InsertedKeys(v.fs, w.fs, d, name, c, FT_REGULAR);
    NotADir(v.fs, v.dirs, c);
  }

  lemma InsertedKeys(fs: Fs, fs': Fs, d: nat, name: Name, c: Word, kind: Word)
    requires OwnInv(fs) && DirOk(fs, d) && |name| <= 15 && Inserted(fs, fs', d, name, c, kind)
    ensures fs'.inodes.Keys == fs.inodes.Keys
  {
    hide DirMap, Entries, OthersSame, FirstDead, MakeRec;
    InsertedFacts(fs, fs', d, name, c, kind);
    DirIsThere(fs, d);
    SameKeys(fs, fs', d);
  }

  lemma SomeLowClear(bits: seq<bool>, used: set<nat>) returns (i: nat)
    requires InodeBits(bits, used) && LowFree(used)
    ensures i < |bits| && !bits[i]
  {
    i :| 0 <= i < LOW && i !in used;
  }

  lemma FirstIsLow(bits: seq<bool>, used: set<nat>, i: int)
    requires InodeBits(bits, used) && LowFree(used) && LeastRun(bits, i, 1)
    ensures 0 <= i < LOW && i !in used && i < |bits| && !bits[i]
    ensures forall k :: 0 <= k < i ==> k in used
  {
    var j :| 0 <= j < LOW && j !in used;
    assert ClearRun(bits, j, 1);
    forall k | 0 <= k < i ensures k in used {
      assert !ClearRun(bits, k, 1);
    }
  }

  lemma NumberInRange(bits: seq<bool>, used: set<nat>, i: nat)
    requires InodeBits(bits, used) && i in used
    ensures i < INODES
  {
  }

  lemma BitTaken(bits: seq<bool>, used: set<nat>, i: nat)
    requires InodeBits(bits, used) && i < INODES
    ensures InodeBits(bits[i := true], used + {i})
  {
  }

  lemma BitGiven(bits: seq<bool>, used: set<nat>, i: nat)
    requires InodeBits(bits, used + {i}) && i !in used
    ensures i < |bits| && InodeBits(bits[i := false], used)
  {
  }

  /** When a call that needs n free blocks for an entry, one more in a full directory, may halt: for lack of blocks,
      or because a word of sector 0 sends the entry of a full directory off the disk. */
  ghost predicate Halting<T>(r: Outcome<T>, fs: Fs, n: nat, full: bool) {
    && |fs.disk| > 0 && (r.Exhausted? ==> ClearBits(fs.bits) < if full then n + 1 else n)
    && (r.AssertFailed? ==> full && OffDisk(fs.disk))
  }

  /** The block of the new directory is gone; sector 0 and the length of the disk are as before. */
  lemma MadeRoom(fs: Fs, fs1: Fs, c: Word, d: Word, lba: Word)
    requires Sizes(fs) && fs.start <= lba < fs.start + |fs.bits| && lba < |fs.disk| && !fs.bits[lba - fs.start]
    requires fs1 == WithDir(fs, c, d, lba)
    ensures |fs1.disk| == |fs.disk| > 0 && fs1.disk[0] == fs.disk[0] && ClearBits(fs1.bits) + 1 == ClearBits(fs.bits)
    ensures FateOf(fs1).NoBlocks? ==> ClearBits(fs.bits) < 3
    ensures FateOf(fs1).NoSector? ==> OffDisk(fs.disk)
    ensures WordAt(fs.disk[0], 0) == 0 && ClearBits(fs.bits) >= 3 ==> FateOf(fs1).Stored?
  {
    hide ClearBits, FateOf, WordAt;
    FreeAfterSet(fs.bits, lba - fs.start);
    HaltingFate(fs1);
    if WordAt(fs.disk[0], 0) == 0 && ClearBits(fs.bits) >= 3 {
      ZerosStore(fs1);
    }
  }

  /** The block of a new directory, with its two entries, and its record. */
  method NewDirBlock(part: Partition, c: Word, d: nat, ghost v: Vol) returns (r: Outcome<Word>)
    requires part.Valid() && Good(v) && v.fs == part.Model() && d in v.dirs && d < 0x1_0000_0000 && c !in part.inodes
    modifies part, part.disk, part.blockBitmap.bits
    ensures part.Valid() && !r.AssertFailed?
    ensures r.Exhausted? ==> ClearBits(v.fs.bits) == 0
    ensures r.Done? ==>
              && v.fs.start <= r.value < v.fs.start + |v.fs.bits| && !v.fs.bits[r.value - v.fs.start]
              && r.value < |v.fs.disk|
              && part.Model() == WithDir(v.fs, c, d, r.value) && HalfMade(v.fs, part.Model(), v.dirs, v.depth, c, d)
  {
    hide ClearBits, VolInv, OwnInv, RootDir, ShapesOk, TreeInv, HalfMade, WithDir, Bitmap.Contents, Bitmap.Valid;
    VolFacts(v.fs, v.dirs, v.depth);
    RootBit(v.fs);
    var lba :- part.BlockBitmapAlloc();
    if lba - part.start == 0 {
      return AssertFailed;
    }
    MkdirHalf(v.fs, v.dirs, v.depth, c, d, lba);
    StoreDir(part, c, d, lba, v.fs);
    return Done(lba);
  }

  /** The sector with the dots and the record of the new directory. */
  method StoreDir(part: Partition, c: Word, d: Word, lba: Word, ghost fs: Fs)
    requires part.Valid() && lba < part.disk.Length && fs.start <= lba < fs.start + |fs.bits|
    requires part.Model() == fs.(bits := fs.bits[lba - fs.start := true])
    modifies part`inodes, part.disk
    ensures part.Valid() && lba < |fs.disk| && part.Model() == WithDir(fs, c, d, lba)
  {
    hide DotsSector, NoSectors, Bitmap.Contents, Bitmap.Valid;
    part.IdeWrite(lba, DotsSector(c, d));
    part.SetInode(c, Inode(2 * REC, NoSectors()[0 := lba]));
  }

  /** The rollback of sys_mkdir. */
  method DropNewDir(part: Partition, c: Word, d: Word, lba: Word, ghost v: Vol)
    requires part.Valid() && Good(v) && d in v.dirs && c !in v.fs.inodes && v.fs.start <= lba < v.fs.start + |v.fs.bits|
    requires !v.fs.bits[lba - v.fs.start] && lba < |v.fs.disk| && part.Model() == WithDir(v.fs, c, d, lba)
    modifies part`inodes, part.blockBitmap.bits
    ensures part.Valid() && Unseen(v, v.(fs := part.Model())) && Good(v.(fs := part.Model()))
    ensures c !in part.inodes && part.inodes.Keys == v.fs.inodes.Keys
  {
    hide VolInv, DotsSector, NoSectors, FilesKept, TreeOf, Bitmap.Contents, Bitmap.Valid;
    part.FreeBlock(lba);
    GoneSizes(part.Model(), c);
    part.inodes := part.inodes - {c};
    assert part.Model().bits == v.fs.bits;
    MkdirUndone(v.fs, part.Model(), v.dirs, v.depth, d, c, lba);
    assert part.inodes == v.fs.inodes;
  }

  /** The half-made directory does not disturb its parent. */
  lemma HalfOfVol(v: Vol, fs1: Fs, d: nat, name: Name, c: Word)
    requires Good(v) && d in v.dirs && d < 0x1_0000_0000 && d in v.fs.inodes && Sizes(v.fs)
             && HalfMade(v.fs, fs1, v.dirs, v.depth, c, d)
    requires MayInsert(v.fs, d, name, c, FT_DIRECTORY)
    ensures Sizes(fs1) && OwnInv(fs1) && DirOk(fs1, d) && d in fs1.inodes && Entries(fs1, d) == Entries(v.fs, d)
    ensures MayInsert(fs1, d, name, c, FT_DIRECTORY)
    ensures fs1.inodes.Keys == v.fs.inodes.Keys + {c}
  {
    hide VolInv, OwnInv, DirOk, Entries, HalfMade, RootDir;
    HalfFacts(v.fs, fs1, v.dirs, v.depth, c, d, v.depth);
    DirOfShapes(fs1, v.dirs + {c}, d);
  }

  lemma DirOfShapes(fs: Fs, dirs: set<nat>, d: nat)
    requires Sizes(fs) && ShapesOk(fs, dirs) && d in dirs
    ensures DirOk(fs, d)
  {
  }

  lemma MadeDirNow(v: Vol, fs1: Fs, fs2: Fs, d: nat, name: Name, c: Word)
    requires Good(v) && d in v.dirs && d < 0x1_0000_0000 && Sizes(v.fs) && HalfMade(v.fs, fs1, v.dirs, v.depth, c, d)
    requires |name| <= 15 && MayAdd(Shape(v), d, name, c) && OwnInv(fs1) && DirOk(fs1, d)
    requires Inserted(fs1, fs2, d, name, c, FT_DIRECTORY)
    ensures d in v.depth
    ensures var w := Vol(fs2, v.dirs + {c}, v.depth[c := v.depth[d] + 1]); Good(w) && MadeDir(v, w, d, name, c)
    ensures fs2.inodes.Keys == v.fs.inodes.Keys + {c}
  {
    hide VolInv, OwnInv, RootDir, ShapesOk, TreeInv, Inserted, DirOk, MayAdd, AddDir, FilesKept, Contents, HalfMade;
    VolFacts(v.fs, v.dirs, v.depth);
    DepthOfDir(v, d);
    HalfFacts(v.fs, fs1, v.dirs, v.depth, c, d, v.depth);
    MkdirKeeps(v.fs, fs1, fs2, v.dirs, v.depth, d, name, c);
    InsertedKeys(fs1, fs2, d, name, c, FT_DIRECTORY);
  }

  lemma DepthOfDir(v: Vol, d: nat)
    requires Good(v) && d in v.dirs
    ensures d in v.depth
  {
    hide OwnInv, RootDir, ShapesOk, DirMap, AllFit, Once, AllListed, Names;
    TreeDir(v.fs, v.dirs, v.depth, d);
  }

  /** A directory lists inode c, which is not in use. */
  ghost predicate Dangling(w: Vol, c: nat) {
    Sizes(w.fs) && c !in w.fs.inodes && Listed(Shape(w), c)
  }

  /** In a good volume every listed inode is in use. */
  lemma DanglingIsBad(w: Vol, c: nat)
    ensures Dangling(w, c) ==> !Good(w)
  {
    hide OwnInv, RootDir, DirOk, FileOk, DirMap, Dots, Once, AllListed, Depths, Names;
    if Good(w) && Dangling(w, c) {
      VolFacts(w.fs, w.dirs, w.depth);
      var d, n :| Lists(Shape(w), d, n, c);
      ListedIsThere(Shape(w), d, n);
    }
  }

  /** No directory lists itself but by ".", which delete_dir_entry passes over. */
  lemma NotInItself(v: Vol, fs1: Fs, c: Word, found: bool)
    requires Good(v) && c in v.dirs && c != 0 && Sizes(v.fs) && OwnInv(v.fs) && DirOk(v.fs, c)
    requires !found ==> fs1 == v.fs
    requires found ==> exists q :: EntryOf(v.fs, c, c, q) && Deleted(v.fs, fs1, c, q)
    ensures !found && fs1 == v.fs && RootDir(fs1) && c in v.fs.inodes
  {
    hide OwnInv, RootDir, ShapesOk, TreeInv, DirOk, DirMap, Deleted, Entries, Live, Ino;
    VolFacts(v.fs, v.dirs, v.depth);
    DirIsThere(v.fs, c);
    forall q ensures !EntryOf(v.fs, c, c, q) {
      NoSelfEntry(v, c, q);
    }
  }

  lemma NoSelfEntry(v: Vol, c: Word, q: nat)
    requires Good(v) && c in v.dirs && c != 0 && Sizes(v.fs) && c in v.fs.inodes && DirOk(v.fs, c)
    ensures !EntryOf(v.fs, c, c, q)
  {
    hide OwnInv, RootDir, ShapesOk, DirMap, Once, AllListed, Names, NameOf, Entries, Live, Ino, DirOk, TableOk;
    DirFacts(v.fs, c);
    if EntryOf(v.fs, c, c, q) {
      EntryName(v.fs, v.dirs, v.depth, c, c, q);
      SelfListed(Shape(v), c, NameOf(Entries(v.fs, c)[q]));
    }
  }

  lemma SelfListed(t: Tree, c: nat, n: Name)
    requires TreeInv(t) && c != 0
    ensures !Lists(t, c, n, c)
  {
    hide Once, AllListed, Names;
    if c in t.dirs && n in t.dirs[c] && Plain(n) {
      assert Fits(t, c, n);
      assert DirDots(t, c) && DepthOk(t, c);
    }
  }

  /** Releasing a directory that its parent lists leaves a dangling entry. */
  lemma SelfRemoved(v: Vol, fs2: Fs, c: Word)
    requires Good(v) && c in v.dirs && c != 0 && Sizes(v.fs) && c in v.fs.inodes && Released(v.fs, fs2, c)
    ensures Dangling(Vol(fs2, v.dirs - {c}, v.depth - {c}), c) && fs2.inodes.Keys == v.fs.inodes.Keys - {c}
  {
    hide OwnInv, RootDir, ShapesOk, DirMap, Released, TreeInv, FilesKept, TreeOf, Listed;
    VolFacts(v.fs, v.dirs, v.depth);
    TreeDir(v.fs, v.dirs, v.depth, c);
    DepthsDoNotMatter(v.fs, v.dirs, v.depth, v.depth - {c});
    GoneStep(v.fs, fs2, v.dirs, v.depth - {c}, c);
    OwnSizes(fs2);
    DanglingTree(Shape(v), TreeOf(fs2, v.dirs - {c}, v.depth - {c}), c);
  }

  lemma DepthsDoNotMatter(fs: Fs, dirs: set<nat>, depth: map<nat, nat>, depth': map<nat, nat>)
    requires Sizes(fs)
    ensures TreeOf(fs, dirs, depth').dirs == TreeOf(fs, dirs, depth).dirs
  {
    hide DirMap;
  }

  lemma DanglingTree(t: Tree, u: Tree, c: nat)
    requires TreeInv(t) && c in t.dirs && c != 0 && u.dirs == t.dirs - {c}
    ensures Listed(u, c)
  {
    hide TreeInv;
    var n := ParentLists(t, c);
    SelfListed(t, c, n);
    assert Lists(u, Up(t, c), n, c);
  }

  /** delete_dir_entry found the entry, and the volume is whole but for the inode. */
  lemma EntryGone(v: Vol, fs1: Fs, d: nat, n: Name, c: Word, found: bool) returns (p: nat)
    requires Good(v) && d in v.dirs && Sizes(v.fs) && OwnInv(v.fs) && DirOk(v.fs, d)
    requires MayDrop(Shape(v), d, n) && Shape(v).dirs[d][n].ino == c
    requires !found ==> NoEntryBefore(v.fs, d, c, PLACES)
    requires found ==> exists q :: EntryOf(v.fs, d, c, q) && Deleted(v.fs, fs1, d, q)
    ensures found && EntryOf(v.fs, d, c, p) && p < PLACES && Deleted(v.fs, fs1, d, p)
    ensures OwnInv(fs1) && RootDir(fs1) && fs1.inodes.Keys == v.fs.inodes.Keys
  {
    hide OwnInv, RootDir, ShapesOk, TreeInv, DirOk, DirMap, Deleted, NoEntryBefore, DirChanged, FilesKept, Entries,
         NameOf, Live, Ino;
    VolFacts(v.fs, v.dirs, v.depth);
    DirIsThere(v.fs, d);
    EntryIsThere(v.fs, v.dirs, v.depth, d, n, c);
    p :| EntryOf(v.fs, d, c, p) && Deleted(v.fs, fs1, d, p);
    EntryInRange(v.fs, d, c, p);
    DeletedFacts(v.fs, fs1, d, c, p);
    DirStep(v.fs, fs1, v.dirs, v.depth, d, Entries(v.fs, d)[p := ZeroRec()]);
  }

  lemma EntryInRange(fs: Fs, d: nat, c: Word, p: nat)
    requires Sizes(fs) && DirOk(fs, d) && EntryOf(fs, d, c, p)
    ensures p < PLACES && |Entries(fs, d)| == PLACES
  {
  }

  lemma FileGone(v: Vol, d: nat, n: Name, c: Word)
    requires Good(v) && d in v.dirs && Sizes(v.fs) && MayDrop(Shape(v), d, n)
             && Shape(v).dirs[d][n] == Item(c, FT_REGULAR)
    ensures c != 0 && c in v.fs.inodes && c !in v.dirs
  {
    hide OwnInv, RootDir, DirMap, Once, AllListed, Depths, Names, DirOk, FileOk;
    assert Fits(Shape(v), d, n);
    FileIsNoRoot(Shape(v), d, n);
  }

  lemma DirGone(v: Vol, d: nat, n: Name, c: Word)
    requires Good(v) && d in v.dirs && Sizes(v.fs) && MayDrop(Shape(v), d, n)
             && Shape(v).dirs[d][n] == Item(c, FT_DIRECTORY)
    ensures c != 0 && c in v.fs.inodes && c in v.dirs
  {
    hide OwnInv, RootDir, DirMap, Once, AllListed, Depths, Names, DirOk, FileOk, ShapesOk;
    assert Fits(Shape(v), d, n);
  }

  lemma UnlinkedNow(v: Vol, fs1: Fs, w: Vol, d: nat, n: Name, c: Word, p: nat)
    requires Good(v) && d in v.dirs && Sizes(v.fs) && OwnInv(v.fs) && DirOk(v.fs, d)
    requires MayDrop(Shape(v), d, n) && Shape(v).dirs[d][n] == Item(c, FT_REGULAR)
    requires EntryOf(v.fs, d, c, p) && p < PLACES && Deleted(v.fs, fs1, d, p)
    requires Sizes(fs1) && fs1.inodes.Keys == v.fs.inodes.Keys && c in fs1.inodes && Released(fs1, w.fs, c)
    requires w.dirs == v.dirs && w.depth == v.depth
    ensures Good(w) && Unlinked(v, w, d, n) && w.fs.inodes.Keys == v.fs.inodes.Keys - {c}
  {
    hide VolInv, OwnInv, DirOk, EntryOf, Deleted, Released, MayDrop, FilesKept, DropFile;
    UnlinkKeeps(v.fs, fs1, w.fs, v.dirs, v.depth, d, n, c, p);
    VolFacts(v.fs, v.dirs, v.depth);
    ReleasedInodes(fs1, w.fs, c);
  }

  lemma RemovedNow(v: Vol, fs1: Fs, fs2: Fs, d: nat, n: Name, c: Word, p: nat)
    requires Good(v) && d in v.dirs && Sizes(v.fs) && OwnInv(v.fs) && DirOk(v.fs, d)
    requires MayDrop(Shape(v), d, n) && Shape(v).dirs[d][n] == Item(c, FT_DIRECTORY)
    requires c in Shape(v).dirs && Shape(v).dirs[c].Keys == {DOT, DOTDOT}
    requires EntryOf(v.fs, d, c, p) && p < PLACES && Deleted(v.fs, fs1, d, p)
    requires Sizes(fs1) && fs1.inodes.Keys == v.fs.inodes.Keys && c in fs1.inodes && Released(fs1, fs2, c)
    ensures var w := Vol(fs2, v.dirs - {c}, v.depth - {c});
            Good(w) && RemovedDir(v, w, d, n) && w.fs.inodes.Keys == v.fs.inodes.Keys - {c}
  {
    hide VolInv, OwnInv, DirOk, EntryOf, Deleted, Released, MayDrop, FilesKept, DropDir;
    RmdirKeeps(v.fs, fs1, fs2, v.dirs, v.depth, d, n, c, p);
    VolFacts(v.fs, v.dirs, v.depth);
    ReleasedInodes(fs1, fs2, c);
  }

  lemma FileOfVol(v: Vol, f: nat)
    requires Good(v) && f in v.fs.inodes && f !in v.dirs
    ensures Sizes(v.fs) && OwnInv(v.fs) && RootDir(v.fs) && FileOk(v.fs, f) && f != 0
  {
    hide OwnInv, FileOk, DirOk, AllFit, Once, AllListed, Depths, Names, DirMap, RootDir;
    VolFacts(v.fs, v.dirs, v.depth);
  }

  lemma WroteNow(v: Vol, fs': Fs, f: nat, buf: seq<Byte>)
    requires Good(v) && f in v.fs.inodes && f !in v.dirs && OwnInv(v.fs) && FileOk(v.fs, f)
             && Appended(v.fs, fs', f, buf)
    ensures var w := v.(fs := fs'); Good(w) && Wrote(v, w, f, buf) && w.fs.inodes.Keys == v.fs.inodes.Keys
  {
    hide VolInv, OwnInv, FileOk, FilesKept, Contents;
    WriteKeeps(v.fs, fs', v.dirs, v.depth, f, buf);
    VolFacts(v.fs, v.dirs, v.depth);
    VolFacts(fs', v.dirs, v.depth);
    AppendedKeys(v.fs, fs', f, buf);
  }

  lemma AppendedKeys(fs: Fs, fs': Fs, f: nat, buf: seq<Byte>)
    requires OwnInv(fs) && FileOk(fs, f) && Appended(fs, fs', f, buf)
    ensures f in fs'.inodes && fs'.inodes.Keys == fs.inodes.Keys
  {
    hide Contents, OthersSame;
    FileIsThere(fs, f);
    FileIsThere(fs', f);
    SameKeys(fs, fs', f);
  }
}
