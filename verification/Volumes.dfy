/** The invariant of a mounted file system, and what its steps do to it: block ownership, the shape
    of files and directories, and the tree. */
module Volumes {
  import opened Bytes
  import opened Blocks
  import opened Files
  import opened DirTables
  import opened Directories
  import opened DirReading
  import opened Paths
  import opened Trees

  /** What of an inode table and a disk is a directory. */
  ghost function TreeOf(fs: Fs, dirs: set<nat>, depth: map<nat, nat>): Tree
    requires Sizes(fs)
  {
    Tree(map d | d in dirs && d in fs.inodes :: DirMap(fs, d), fs.inodes.Keys - dirs, depth)
  }

  ghost predicate ShapesOk(fs: Fs, dirs: set<nat>)
    requires Sizes(fs)
  {
    && dirs <= fs.inodes.Keys
    && (forall d :: d in dirs ==> DirOk(fs, d))
    && (forall f :: f in fs.inodes && f !in dirs ==> FileOk(fs, f))
  }

  /** dirs: the inodes that are directories. depth: how deep they lie. */
  ghost predicate VolInv(fs: Fs, dirs: set<nat>, depth: map<nat, nat>) {
    OwnInv(fs) && RootDir(fs) && ShapesOk(fs, dirs) && TreeInv(TreeOf(fs, dirs, depth))
  }

  // ---------------------------------------------------------------------------------------
  // Other inodes.

  /** A directory that is not touched lists what it listed. */
  lemma DirUntouched(fs: Fs, fs': Fs, i: nat, d: nat)
    requires Sizes(fs) && Sizes(fs') && OthersSame(fs, fs', i) && d != i && DirOk(fs, d)
    ensures DirOk(fs', d) && Entries(fs', d) == Entries(fs, d) && DirMap(fs', d) == DirMap(fs, d)
  {
    hide Slots, TableOk, Listing, LiveCount, RecAt, BlockLive;
    forall p | 0 <= p < PLACES ensures Entries(fs', d)[p] == Entries(fs, d)[p] {
      OwnSector(fs, d, p / PER_BLOCK);
    }
    assert Entries(fs', d) == Entries(fs, d);
  }

  /** A file that is not touched keeps its bytes. */
  lemma FileUntouched(fs: Fs, fs': Fs, i: nat, f: nat)
    requires Sizes(fs) && Sizes(fs') && OthersSame(fs, fs', i) && f != i && FileOk(fs, f)
    ensures FileOk(fs', f) && Contents(fs', f) == Contents(fs, f)
  {
    hide Slots, FileShape;
    var slots := Slots(fs.disk, fs.inodes[f]);
    assert Own(fs)[f] == slots && Own(fs')[f] == Slots(fs'.disk, fs'.inodes[f]) == slots;
    forall x | 0 <= x < fs.inodes[f].size
      ensures BlockOf(fs'.disk, slots, x / SECTOR)[x % SECTOR] == BlockOf(fs.disk, slots, x / SECTOR)[x % SECTOR]
    {
      FileHas(fs, f, x / SECTOR);
    }
    assert Contents(fs', f) == Contents(fs, f);
  }

  lemma FileHas(fs: Fs, f: nat, b: nat)
    requires Sizes(fs) && FileOk(fs, f) && b <= fs.inodes[f].size / SECTOR && fs.inodes[f].size > 0
    ensures b < MAX_BLOCKS && SlotOf(b) < SLOTS && Slots(fs.disk, fs.inodes[f])[SlotOf(b)] != 0
  {
    hide Slots;
  }

  /** Only inode i is touched: all others keep their shape, directories what they list. */
  lemma ShapesUntouched(fs: Fs, fs': Fs, i: nat, dirs: set<nat>, j: nat)
    requires Sizes(fs) && Sizes(fs') && OthersSame(fs, fs', i) && ShapesOk(fs, dirs) && j in fs.inodes && j != i
    ensures j in fs'.inodes
    ensures if j in dirs then DirOk(fs', j) && DirMap(fs', j) == DirMap(fs, j)
            else FileOk(fs', j) && Contents(fs', j) == Contents(fs, j)
  {
    hide DirOk, FileOk, DirMap, Contents;
    if j in dirs {
      DirUntouched(fs, fs', i, j);
    } else {
      FileUntouched(fs, fs', i, j);
    }
  }

  lemma RootUntouched(fs: Fs, fs': Fs, i: nat)
    requires OwnInv(fs) && OwnInv(fs') && RootDir(fs) && OthersSame(fs, fs', i)
    requires i == 0 ==> 0 in fs'.inodes && fs'.inodes[0].sectors[0] == fs.inodes[0].sectors[0]
    ensures RootDir(fs')
  {
    hide Exclusive, BitsMatch, Slots;
    OwnSector(fs, 0, 0);
    if i == 0 {
      OwnSector(fs', 0, 0);
    } else {
      RootStays(fs, fs', i);
    }
  }

  // ---------------------------------------------------------------------------------------
  // Inodes come and go.

  function NoSectors(): (r: seq<Word>)
    ensures |r| == 13
  {
    seq(13, _ => 0)
  }

  lemma EmptySlots(disk: seq<Sector>, size: nat)
    ensures forall k :: 0 <= k < SLOTS ==> Slots(disk, Inode(size, NoSectors()))[k] == 0
  {
  }

  /** A new file inode owns nothing and holds nothing. */
  lemma FreshFile(fs: Fs, c: nat)
    requires OwnInv(fs) && c !in fs.inodes
    ensures var fs' := fs.(inodes := fs.inodes[c := Inode(0, NoSectors())]);
            OwnInv(fs') && OthersSame(fs, fs', c) && FileOk(fs', c) && Contents(fs', c) == []
  {
    hide Exclusive, BitsMatch, Slots, WritesOwn;
    var fs' := fs.(inodes := fs.inodes[c := Inode(0, NoSectors())]);
    var slots := Slots(fs'.disk, fs'.inodes[c]);
    EmptySlots(fs.disk, 0);
    EmptyReslot(fs, c, slots);
    SameDisk(fs, c);
    OwnAfter(fs, fs', c);
    OthersFromWrites(fs, fs', c);
  }

  lemma EmptyReslot(fs: Fs, c: nat, slots: seq<Word>)
    requires OwnInv(fs) && c !in fs.inodes && forall k :: 0 <= k < |slots| ==> slots[k] == 0
    ensures Reslot(Own(fs), fs.start, fs.usable, fs.bits, c, slots, fs.bits)
  {
    hide Exclusive, BitsMatch, Slots;
  }

  /** A new directory inode owns the free block lba. */
  lemma FreshDir(fs: Fs, c: nat, lba: Word, sector: Sector, size: nat)
    requires OwnInv(fs) && c !in fs.inodes && fs.start <= lba < fs.start + |fs.bits| && !fs.bits[lba - fs.start]
    ensures lba < |fs.disk|
    ensures var fs' := fs.(disk := fs.disk[lba := sector], bits := fs.bits[lba - fs.start := true],
                           inodes := fs.inodes[c := Inode(size, NoSectors()[0 := lba])]);
            OwnInv(fs') && OthersSame(fs, fs', c)
  {
    hide Exclusive, BitsMatch, Slots, WritesOwn, Reslot;
    FreeBlockIsUsable(fs, lba);
    var ino := Inode(size, NoSectors()[0 := lba]);
    var fs' := fs.(disk := fs.disk[lba := sector], bits := fs.bits[lba - fs.start := true],
        inodes := fs.inodes[c := ino]);
    FreshWrite(fs, c, lba, sector);
    OneSlot(fs'.disk, size, lba);
    OneReslot(fs, c, lba, Slots(fs'.disk, ino));
    OwnAfter(fs, fs', c);
    OthersFromWrites(fs, fs', c);
  }

  lemma OneSlot(disk: seq<Sector>, size: nat, lba: Word)
    ensures var slots := Slots(disk, Inode(size, NoSectors()[0 := lba]));
            slots[0] == lba && forall k :: 1 <= k < SLOTS ==> slots[k] == 0
  {
  }

  lemma OneReslot(fs: Fs, c: nat, lba: Word, slots: seq<Word>)
    requires OwnInv(fs) && c !in fs.inodes && fs.start <= lba < fs.start + |fs.bits| && !fs.bits[lba - fs.start]
    requires |slots| == SLOTS && slots[0] == lba && forall k :: 1 <= k < SLOTS ==> slots[k] == 0
    ensures Reslot(Own(fs), fs.start, fs.usable, fs.bits, c, slots, fs.bits[lba - fs.start := true])
  {
    hide Exclusive, BitsMatch, Slots;
  }

  /** A free block belongs to nobody. */
  lemma FreshWrite(fs: Fs, c: nat, lba: Word, sector: Sector)
    requires OwnInv(fs) && fs.start <= lba < fs.start + |fs.bits| && !fs.bits[lba - fs.start] && lba < |fs.disk|
    ensures WritesOwn(fs, fs.disk[lba := sector], c)
  {
    hide Exclusive, BitsMatch, Slots;
    FreeIsNobodys(Own(fs), fs.start, fs.usable, fs.bits, lba);
  }

  /** Inode c is gone and its blocks are free. */
  ghost predicate Released(fs: Fs, fs': Fs, c: nat)
    requires Sizes(fs) && c in fs.inodes
  {
    && fs' == fs.(bits := fs'.bits, inodes := fs.inodes - {c}) && |fs'.bits| == |fs.bits|
    && forall b :: 0 <= b < |fs.bits| ==> fs'.bits[b] == (fs.bits[b] && fs.start + b !in Own(fs)[c])
  }

  lemma ReleasedInodes(fs: Fs, fs': Fs, c: nat)
    requires Sizes(fs) && c in fs.inodes && Released(fs, fs', c)
    ensures fs'.inodes == fs.inodes - {c}
  {
  }

  lemma ReleaseKeeps(fs: Fs, fs': Fs, c: nat)
    requires OwnInv(fs) && c in fs.inodes && Released(fs, fs', c)
    ensures OwnInv(fs') && OthersSame(fs, fs', c)
  {
    hide Exclusive, BitsMatch, Slots;
    RemoveKeeps(Own(fs), fs.start, fs.usable, fs.bits, c, fs'.bits);
    assert Own(fs') == Own(fs) - {c};
  }

  // ---------------------------------------------------------------------------------------
  // Steps.

  /** Files that are there before and after have the same bytes. */
  ghost predicate FilesKept(fs: Fs, fs': Fs, dirs: set<nat>)
    requires Sizes(fs) && Sizes(fs')
  {
    forall f :: f in fs.inodes && f in fs'.inodes && f !in dirs ==> Contents(fs', f) == Contents(fs, f)
  }

  lemma FilesKeptThen(fs: Fs, fs1: Fs, fs2: Fs, dirs: set<nat>)
    requires Sizes(fs) && Sizes(fs1) && Sizes(fs2) && FilesKept(fs, fs1, dirs) && FilesKept(fs1, fs2, dirs)
    requires fs2.inodes.Keys * fs.inodes.Keys <= fs1.inodes.Keys
    ensures FilesKept(fs, fs2, dirs)
  {
    hide Contents, Sizes;
    forall f | f in fs.inodes && f in fs2.inodes && f !in dirs ensures Contents(fs2, f) == Contents(fs, f) {
      assert f in fs2.inodes.Keys * fs.inodes.Keys;
    }
  }

  /** All inodes but i are as they were. */
  ghost predicate Kept(fs: Fs, fs': Fs, i: nat, dirs: set<nat>)
    requires Sizes(fs) && Sizes(fs')
  {
    forall j :: j in fs.inodes && j != i ==>
      && j in fs'.inodes
      && (j in dirs ==> DirOk(fs', j) && DirMap(fs', j) == DirMap(fs, j))
      && (j !in dirs ==> FileOk(fs', j) && Contents(fs', j) == Contents(fs, j))
  }

  lemma AllKept(fs: Fs, fs': Fs, i: nat, dirs: set<nat>)
    requires Sizes(fs) && Sizes(fs') && OthersSame(fs, fs', i) && ShapesOk(fs, dirs)
    ensures Kept(fs, fs', i, dirs)
  {
    hide OthersSame, ShapesOk, DirOk, FileOk, DirMap, Contents, Sizes;
    forall j | j in fs.inodes && j != i
      ensures j in fs'.inodes
      ensures if j in dirs then DirOk(fs', j) && DirMap(fs', j) == DirMap(fs, j)
              else FileOk(fs', j) && Contents(fs', j) == Contents(fs, j)
    {
      ShapesUntouched(fs, fs', i, dirs, j);
    }
  }

  /** Directory d changed what it lists, and nothing else happened. */
  lemma DirStep(fs: Fs, fs': Fs, dirs: set<nat>, depth: map<nat, nat>, d: nat, u: Table)
    requires OwnInv(fs) && RootDir(fs) && ShapesOk(fs, dirs) && d in dirs && DirChanged(fs, fs', d, u)
    ensures OwnInv(fs') && RootDir(fs') && ShapesOk(fs', dirs) && FilesKept(fs, fs', dirs)
    ensures fs'.inodes.Keys == fs.inodes.Keys && d in fs'.inodes
    ensures TreeOf(fs', dirs, depth) ==
            TreeOf(fs, dirs, depth).(dirs := TreeOf(fs, dirs, depth).dirs[d := DirMap(fs', d)])
  {
    hide OwnInv, OthersSame, RootDir, Slots, DirOk, FileOk, DirMap, Contents, Sizes, Released;
    OwnSizes(fs);
    OwnSizes(fs');
    DirIsThere(fs', d);
    RootUntouched(fs, fs', d);
    AllKept(fs, fs', d, dirs);
    SameKeys(fs, fs', d);
    var t, t' := TreeOf(fs, dirs, depth), TreeOf(fs', dirs, depth);
    assert t'.dirs == t.dirs[d := DirMap(fs', d)];
  }

  lemma RootThere(fs: Fs)
    requires RootDir(fs)
    ensures 0 in fs.inodes
  {
  }

  lemma SameKeys(fs: Fs, fs': Fs, d: nat)
    requires Sizes(fs) && Sizes(fs') && OthersSame(fs, fs', d) && d in fs.inodes && d in fs'.inodes
    ensures fs'.inodes.Keys == fs.inodes.Keys
  {
    hide Slots;
  }

  /** A new inode c, file or directory. */
  lemma NewStep(fs: Fs, fs': Fs, dirs: set<nat>, dirs': set<nat>, depth: map<nat, nat>, c: nat)
    requires OwnInv(fs) && OwnInv(fs') && RootDir(fs) && ShapesOk(fs, dirs) && OthersSame(fs, fs', c)
    requires c !in fs.inodes && c in fs'.inodes && dirs' - {c} == dirs
    requires if c in dirs' then DirOk(fs', c) else FileOk(fs', c)
    ensures RootDir(fs') && ShapesOk(fs', dirs') && FilesKept(fs, fs', dirs')
    ensures fs'.inodes.Keys == fs.inodes.Keys + {c}
    ensures var t := TreeOf(fs, dirs, depth);
            TreeOf(fs', dirs', depth) == if c in dirs' then t.(dirs := t.dirs[c := DirMap(fs', c)])
              else t.(files := t.files + {c})
  {
    hide OwnInv, OthersSame, RootDir, Slots, DirOk, FileOk, DirMap, Contents, Sizes, Released;
    OwnSizes(fs);
    OwnSizes(fs');
    RootThere(fs);
    RootStays(fs, fs', c);
    AllKept(fs, fs', c, dirs);
    OneKeyMore(fs, fs', c);
    var t, t' := TreeOf(fs, dirs, depth), TreeOf(fs', dirs', depth);
    if c in dirs' {
      assert t'.dirs == t.dirs[c := DirMap(fs', c)];
      assert t'.files == t.files;
    } else {
      assert t'.dirs == t.dirs;
      assert t'.files == t.files + {c};
    }
  }

  lemma OneKeyMore(fs: Fs, fs': Fs, c: nat)
    requires Sizes(fs) && Sizes(fs') && OthersSame(fs, fs', c) && c !in fs.inodes && c in fs'.inodes
    ensures fs'.inodes.Keys == fs.inodes.Keys + {c}
  {
    hide Slots;
  }

  /** Inode c goes away. */
  lemma GoneStep(fs: Fs, fs': Fs, dirs: set<nat>, depth: map<nat, nat>, c: nat)
    requires OwnInv(fs) && RootDir(fs) && ShapesOk(fs, dirs) && c in fs.inodes && c != 0 && Released(fs, fs', c)
    ensures OwnInv(fs') && RootDir(fs') && ShapesOk(fs', dirs - {c}) && FilesKept(fs, fs', dirs)
    ensures fs'.inodes.Keys == fs.inodes.Keys - {c}
    ensures var t := TreeOf(fs, dirs, depth);
            TreeOf(fs', dirs - {c}, depth) == t.(dirs := t.dirs - {c}, files := t.files - {c})
  {
    hide OwnInv, OthersSame, RootDir, Slots, DirOk, FileOk, DirMap, Contents, Sizes, Released;
    OwnSizes(fs);
    ReleaseKeeps(fs, fs', c);
    OwnSizes(fs');
    RootStays(fs, fs', c);
    AllKept(fs, fs', c, dirs);
    assert fs'.inodes == fs.inodes - {c} by { ReleasedInodes(fs, fs', c); }
    var t, t' := TreeOf(fs, dirs, depth), TreeOf(fs', dirs - {c}, depth);
    assert t'.dirs == t.dirs - {c};
    assert t'.files == t.files - {c};
  }

  // ---------------------------------------------------------------------------------------
  // Whole operations.

  lemma VolFacts(fs: Fs, dirs: set<nat>, depth: map<nat, nat>)
    requires VolInv(fs, dirs, depth)
    ensures Sizes(fs) && OwnInv(fs) && RootDir(fs) && ShapesOk(fs, dirs) && TreeInv(TreeOf(fs, dirs, depth))
  {
  }

  lemma TreeDir(fs: Fs, dirs: set<nat>, depth: map<nat, nat>, d: nat)
    requires VolInv(fs, dirs, depth) && d in dirs
    ensures Sizes(fs) && d in fs.inodes && DirOk(fs, d)
    ensures d in TreeOf(fs, dirs, depth).dirs && TreeOf(fs, dirs, depth).dirs[d] == DirMap(fs, d)
  {
    hide OwnInv, RootDir, TreeInv, DirOk, DirMap, Sizes;
    VolFacts(fs, dirs, depth);
  }

  lemma InsertedFacts(fs: Fs, fs': Fs, d: nat, name: Name, ino: Word, kind: Word)
    requires OwnInv(fs) && DirOk(fs, d) && |name| <= 16 && Inserted(fs, fs', d, name, ino, kind)
    ensures FirstDead(Entries(fs, d)).Some?
    ensures DirChanged(fs, fs', d, Entries(fs, d)[FirstDead(Entries(fs, d)).value := MakeRec(name, ino, kind)])
    ensures d in fs'.inodes && Sizes(fs') && DirMap(fs', d) == DirMap(fs, d)[name := Item(ino, kind)]
  {
    hide DirMap, Entries, FirstDead, MakeRec, OthersSame;
  }

  /** file_create: one more file, empty, listed in d; every other file keeps its bytes. */
  lemma CreateKeeps(fs: Fs, fs1: Fs, dirs: set<nat>, depth: map<nat, nat>, d: nat, name: Name, c: Word)
    requires VolInv(fs, dirs, depth) && d in dirs && DirOk(fs, d) && |name| <= 15
    requires MayAdd(TreeOf(fs, dirs, depth), d, name, c) && c !in fs.inodes
    requires Inserted(fs, fs1, d, name, c, FT_REGULAR)
    ensures var fs2 := fs1.(inodes := fs1.inodes[c := Inode(0, NoSectors())]);
            && VolInv(fs2, dirs, depth) && FilesKept(fs, fs2, dirs) && Contents(fs2, c) == []
            && TreeOf(fs2, dirs, depth) == AddFile(TreeOf(fs, dirs, depth), d, name, c)
  {
    hide OwnInv, RootDir, ShapesOk, TreeInv, DirOk, DirMap, Sizes, OthersSame, FileOk, Contents, DirChanged, Inserted,
         FilesKept, Entries;
    VolFacts(fs, dirs, depth);
    var fs2 := fs1.(inodes := fs1.inodes[c := Inode(0, NoSectors())]);
    var t := TreeOf(fs, dirs, depth);
    TreeDir(fs, dirs, depth, d);
    InsertedFacts(fs, fs1, d, name, c, FT_REGULAR);
    DirStep(fs, fs1, dirs, depth, d, Entries(fs, d)[FirstDead(Entries(fs, d)).value := MakeRec(name, c, FT_REGULAR)]);
    assert c !in fs1.inodes.Keys;
    NotADir(fs, dirs, c);
    FreshFile(fs1, c);
    NewStep(fs1, fs2, dirs, dirs, depth, c);
    OwnSizes(fs2);
    assert fs2.inodes.Keys * fs.inodes.Keys <= fs1.inodes.Keys;
    FilesKeptThen(fs, fs1, fs2, dirs);
    AddFileKeeps(t, d, name, c);
    assert TreeOf(fs2, dirs, depth) == AddFile(t, d, name, c);
  }

  lemma NotADir(fs: Fs, dirs: set<nat>, c: nat)
    requires Sizes(fs) && ShapesOk(fs, dirs) && c !in fs.inodes
    ensures c !in dirs
  {
  }

  /** The first sector of a new directory c in d. */
  function DotsSector(c: Word, d: Word): Sector {
    PutRec(PutRec(ZeroSector(), 0, MakeRec(DOT, c, FT_DIRECTORY)), 1, MakeRec(DOTDOT, d, FT_DIRECTORY))
  }

  lemma DotsAt(c: Word, d: Word, k: nat)
    requires k < PER_BLOCK
    ensures RecAt(DotsSector(c, d), k) ==
              if k == 0 then MakeRec(DOT, c, FT_DIRECTORY) else if k == 1 then MakeRec(DOTDOT, d, FT_DIRECTORY)
                else ZeroRec()
  {
    hide RecAt, PutRec, MakeRec, ZeroRec, ZeroSector;
    var s := PutRec(ZeroSector(), 0, MakeRec(DOT, c, FT_DIRECTORY));
    PutRecAt(s, 1, MakeRec(DOTDOT, d, FT_DIRECTORY), k);
    PutRecAt(ZeroSector(), 0, MakeRec(DOT, c, FT_DIRECTORY), k);
    ZeroSectorAt(k);
  }

  lemma NewTable(t: Table, c: Word, d: Word)
    requires |t| == PLACES && t[0] == MakeRec(DOT, c, FT_DIRECTORY) && t[1] == MakeRec(DOTDOT, d, FT_DIRECTORY)
    requires forall p :: 2 <= p < PLACES ==> t[p] == ZeroRec()
    ensures TableOk(t, c) && LiveCount(t) == 2 && Listing(t) == NewListing(c, d)
  {
    hide Live, NameOf, NameIs, Ino, Type, MakeRec, ZeroRec, LiveCount, Listing;
    assert TableOk(t, c) by { NewTableOk(t, c, d); }
    ZeroIsDead();
    TwoIffDots(t, c);
    DotsIffKeys(t, c);
    ListingAt(t, c, 0);
    ListingAt(t, c, 1);
    NewNames(c, d);
    assert Listing(t) == NewListing(c, d);
  }

  lemma NewNames(c: Word, d: Word)
    ensures var r, s := MakeRec(DOT, c, FT_DIRECTORY), MakeRec(DOTDOT, d, FT_DIRECTORY);
            && Live(r) && NameIs(r, DOT) && NameOf(r) == DOT && Ino(r) == c && Type(r) == FT_DIRECTORY
            && Live(s) && NameIs(s, DOTDOT) && NameOf(s) == DOTDOT && Ino(s) == d && Type(s) == FT_DIRECTORY
  {
    hide NameOf, NameIs, Ino, Type, MakeRec;
    MakeRecFields(DOT, c, FT_DIRECTORY);
    MakeRecFields(DOTDOT, d, FT_DIRECTORY);
    NameIsNameOf(MakeRec(DOT, c, FT_DIRECTORY), DOT);
    NameIsNameOf(MakeRec(DOTDOT, d, FT_DIRECTORY), DOTDOT);
  }

  lemma NewTableOk(t: Table, c: Word, d: Word)
    requires |t| == PLACES && t[0] == MakeRec(DOT, c, FT_DIRECTORY) && t[1] == MakeRec(DOTDOT, d, FT_DIRECTORY)
    requires forall p :: 2 <= p < PLACES ==> t[p] == ZeroRec()
    ensures TableOk(t, c)
  {
    hide Live, NameOf, NameIs, Ino, Type, MakeRec, ZeroRec, GoodName;
    ZeroIsDead();
    NewNames(c, d);
    DotNames();
    forall p | 0 <= p < PLACES && Live(t[p]) ensures p < 2 {
    }
  }

  /** The directory that sys_mkdir writes. */
  lemma NewDir(fs: Fs, c: Word, d: Word, lba: Word)
    requires Sizes(fs) && c in fs.inodes && fs.inodes[c] == Inode(2 * REC, NoSectors()[0 := lba])
    requires 0 < lba < |fs.disk| && fs.disk[lba] == DotsSector(c, d)
    ensures DirOk(fs, c) && DirMap(fs, c) == NewListing(c, d)
  {
    hide RecAt, TableOk, Listing, LiveCount, MakeRec, ZeroRec, DotsSector, NewListing, Live;
    var t, sectors := Entries(fs, c), NoSectors()[0 := lba];
    forall p | 0 <= p < PLACES
      ensures t[p] == if p == 0 then MakeRec(DOT, c, FT_DIRECTORY)
              else if p == 1 then MakeRec(DOTDOT, d, FT_DIRECTORY) else ZeroRec()
    {
      if p < PER_BLOCK {
        EntryInBlock(fs.disk, sectors, 0, p);
        DotsAt(c, d, p);
      } else {
        DeadBlock(fs, c, p / PER_BLOCK, p);
      }
    }
    NewTable(t, c, d);
  }

  /** The tree knows that the new entry may go in. */
  lemma MayInsertFrom(fs: Fs, dirs: set<nat>, depth: map<nat, nat>, d: nat, name: Name, c: Word, kind: Word)
    requires VolInv(fs, dirs, depth) && d in dirs && MayAdd(TreeOf(fs, dirs, depth), d, name, c) && kind != FT_UNKNOWN
    ensures Sizes(fs) && d in fs.inodes && MayInsert(fs, d, name, c, kind)
  {
    hide OwnInv, RootDir, ShapesOk, DirOk, Sizes, Dots, AllFit, Once, AllListed, Depths, Names, Entries, Live, Ino,
         GoodName;
    VolFacts(fs, dirs, depth);
    TreeDir(fs, dirs, depth, d);
    DirFacts(fs, d);
    NotListedYet(TreeOf(fs, dirs, depth), c);
    forall q | 2 <= q < PLACES && Live(Entries(fs, d)[q]) ensures Ino(Entries(fs, d)[q]) != c {
      if Ino(Entries(fs, d)[q]) == c {
        EntryName(fs, dirs, depth, d, c, q);
      }
    }
  }

  /** A live entry that is no dot, seen in the tree. */
  lemma EntryName(fs: Fs, dirs: set<nat>, depth: map<nat, nat>, d: nat, c: Word, p: nat)
    requires VolInv(fs, dirs, depth) && d in dirs && d in fs.inodes && EntryOf(fs, d, c, p)
    ensures Lists(TreeOf(fs, dirs, depth), d, NameOf(Entries(fs, d)[p]), c)
  {
    hide OwnInv, RootDir, ShapesOk, DirOk, Sizes, TreeInv, Entries, Live, Ino, GoodName, NameOf, Listing, TableOk,
         LiveCount, Counted, NameIs;
    VolFacts(fs, dirs, depth);
    TreeDir(fs, dirs, depth, d);
    DirFacts(fs, d);
    ListingAt(Entries(fs, d), d, p);
    CountedFrom2(Entries(fs, d), d, p);
    CountedPlain(Entries(fs, d)[p]);
  }

  lemma CountedPlain(r: Rec)
    requires Counted(r)
    ensures Plain(NameOf(r))
  {
    hide NameOf, NameIs, Live;
    NameIsNameOf(r, DOT);
    NameIsNameOf(r, DOTDOT);
  }

  /** A listed inode has its entry. */
  lemma EntryIsThere(fs: Fs, dirs: set<nat>, depth: map<nat, nat>, d: nat, n: Name, c: Word)
    requires VolInv(fs, dirs, depth) && d in dirs && d in fs.inodes && Lists(TreeOf(fs, dirs, depth), d, n, c)
    ensures !NoEntryBefore(fs, d, c, PLACES)
  {
    hide OwnInv, RootDir, ShapesOk, DirOk, Sizes, TreeInv, Entries, Live, Ino, GoodName, NameOf, Listing, TableOk,
         LiveCount, Counted, NameIs;
    VolFacts(fs, dirs, depth);
    TreeDir(fs, dirs, depth, d);
    DirFacts(fs, d);
    var t := Entries(fs, d);
    var p := ListingFrom(t, n);
    ListingAt(t, d, p);
    DotsNamed(t, d);
    assert EntryOf(fs, d, c, p);
  }

  lemma DotsNamed(t: Table, d: Word)
    requires TableOk(t, d)
    ensures NameOf(t[0]) == DOT && NameOf(t[1]) == DOTDOT
  {
    hide NameOf, NameIs, Live;
    NameIsNameOf(t[0], DOT);
    NameIsNameOf(t[1], DOTDOT);
  }

  /** fs with the new directory c in block lba, not yet listed anywhere. */
  ghost function WithDir(fs: Fs, c: Word, d: Word, lba: Word): Fs
    requires fs.start <= lba < fs.start + |fs.bits| && lba < |fs.disk|
  {
    fs.(disk := fs.disk[lba := DotsSector(c, d)], bits := fs.bits[lba - fs.start := true],
        inodes := fs.inodes[c := Inode(2 * REC, NoSectors()[0 := lba])])
  }

  /** fs1 is fs with one more directory c, which is listed nowhere. */
  ghost predicate HalfMade(fs: Fs, fs1: Fs, dirs: set<nat>, depth: map<nat, nat>, c: Word, d: Word) {
    && Sizes(fs) && OwnInv(fs1) && RootDir(fs1) && ShapesOk(fs1, dirs + {c}) && FilesKept(fs, fs1, dirs)
    && c !in fs.inodes && c !in dirs && fs1.inodes.Keys == fs.inodes.Keys + {c}
    && d in fs.inodes && Entries(fs1, d) == Entries(fs, d)
    && var t := TreeOf(fs, dirs, depth); TreeOf(fs1, dirs + {c}, depth) == t.(dirs := t.dirs[c := NewListing(c, d)])
  }

  lemma HalfFacts(fs: Fs, fs1: Fs, dirs: set<nat>, depth: map<nat, nat>, c: Word, d: Word, depth': map<nat, nat>)
    requires HalfMade(fs, fs1, dirs, depth, c, d)
    ensures Sizes(fs) && Sizes(fs1) && OwnInv(fs1) && RootDir(fs1) && ShapesOk(fs1, dirs + {c})
            && FilesKept(fs, fs1, dirs)
    ensures c !in fs.inodes && c !in dirs && fs1.inodes.Keys == fs.inodes.Keys + {c}
    ensures d in fs.inodes && d in fs1.inodes && Entries(fs1, d) == Entries(fs, d)
    ensures var t := TreeOf(fs, dirs, depth');
            TreeOf(fs1, dirs + {c}, depth') == t.(dirs := t.dirs[c := NewListing(c, d)])
  {
    hide Exclusive, BitsMatch, RootDir, ShapesOk, Entries, NewListing, Slots, DirMap, FilesKept;
    assert TreeOf(fs, dirs, depth').dirs == TreeOf(fs, dirs, depth).dirs;
    assert TreeOf(fs1, dirs + {c}, depth').dirs == TreeOf(fs1, dirs + {c}, depth).dirs;
  }

  /** The new directory is there, but listed nowhere. */
  lemma MkdirHalf(fs: Fs, dirs: set<nat>, depth: map<nat, nat>, c: Word, d: Word, lba: Word)
    requires VolInv(fs, dirs, depth) && d in dirs && c !in fs.inodes
    requires fs.start <= lba < fs.start + |fs.bits| && !fs.bits[lba - fs.start]
    ensures lba < |fs.disk| && HalfMade(fs, WithDir(fs, c, d, lba), dirs, depth, c, d)
  {
    hide OwnInv, RootDir, ShapesOk, TreeInv, DirOk, DirMap, Sizes, OthersSame, FileOk, Contents, FilesKept, Entries,
         NewListing, Slots, DotsSector;
    VolFacts(fs, dirs, depth);
    TreeDir(fs, dirs, depth, d);
    NotADir(fs, dirs, c);
    FreshDir(fs, c, lba, DotsSector(c, d), 2 * REC);
    var fs1 := WithDir(fs, c, d, lba);
    OwnSizes(fs1);
    StartPositive(fs);
    NewDir(fs1, c, d, lba);
    DirUntouched(fs, fs1, c, d);
    NewStep(fs, fs1, dirs, dirs + {c}, depth, c);
    OwnSector(fs1, c, 0);
    FilesKeptLess(fs, fs1, dirs, c);
  }

  lemma FilesKeptLess(fs: Fs, fs': Fs, dirs: set<nat>, c: nat)
    requires Sizes(fs) && Sizes(fs') && FilesKept(fs, fs', dirs + {c}) && c !in fs.inodes
    ensures FilesKept(fs, fs', dirs)
  {
    hide Contents, Sizes;
  }

  /** sys_mkdir: one more directory, empty but for its dots, listed in d; every file keeps its bytes. */
  lemma MkdirKeeps(fs: Fs, fs1: Fs, fs2: Fs, dirs: set<nat>, depth: map<nat, nat>, d: Word, name: Name, c: Word)
    requires VolInv(fs, dirs, depth) && d in dirs && d in depth && |name| <= 15
    requires MayAdd(TreeOf(fs, dirs, depth), d, name, c) && HalfMade(fs, fs1, dirs, depth, c, d)
    requires OwnInv(fs1) && DirOk(fs1, d) && Inserted(fs1, fs2, d, name, c, FT_DIRECTORY)
    ensures var depth' := depth[c := depth[d] + 1];
            && VolInv(fs2, dirs + {c}, depth') && FilesKept(fs, fs2, dirs)
            && TreeOf(fs2, dirs + {c}, depth') == AddDir(TreeOf(fs, dirs, depth), d, name, c)
  {
    hide OwnInv, RootDir, ShapesOk, TreeInv, DirOk, Sizes, OthersSame, FileOk, Contents, DirChanged, Inserted,
         FilesKept, Entries, NewListing, HalfMade, Slots;
    var depth' := depth[c := depth[d] + 1];
    VolFacts(fs, dirs, depth);
    TreeDir(fs, dirs, depth, d);
    HalfFacts(fs, fs1, dirs, depth, c, d, depth');
    InsertedFacts(fs1, fs2, d, name, c, FT_DIRECTORY);
    DirStep(fs1, fs2, dirs + {c}, depth', d,
            Entries(fs1, d)[FirstDead(Entries(fs1, d)).value := MakeRec(name, c, FT_DIRECTORY)]);
    FilesKeptMore(fs1, fs2, dirs, c, fs);
    AddDirFrom(TreeOf(fs, dirs, depth), d, name, c, TreeOf(fs2, dirs + {c}, depth'));
  }

  lemma AddDirFrom(t: Tree, d: nat, name: Name, c: Word, u: Tree)
    requires MayAdd(t, d, name, c) && d in t.depth && u.files == t.files && u.depth == t.depth[c := t.depth[d] + 1]
    requires u.dirs == t.dirs[c := NewListing(c, d)][d := t.dirs[d][name := Item(c, FT_DIRECTORY)]]
    ensures u == AddDir(t, d, name, c) && TreeInv(u)
  {
    hide TreeInv, NewListing, GoodName;
    AddDirKeeps(t, d, name, c);
    assert u.dirs == AddDir(t, d, name, c).dirs;
  }

  lemma FilesKeptMore(fs1: Fs, fs2: Fs, dirs: set<nat>, c: nat, fs: Fs)
    requires Sizes(fs1) && Sizes(fs2) && Sizes(fs) && FilesKept(fs, fs1, dirs) && FilesKept(fs1, fs2, dirs + {c})
    requires c !in fs.inodes && fs1.inodes.Keys == fs.inodes.Keys + {c}
    ensures FilesKept(fs, fs2, dirs)
  {
    hide Contents, Sizes;
  }

  /** sys_mkdir when the parent directory is full: the block and the inode are given back. */
  lemma MkdirUndone(fs: Fs, fs': Fs, dirs: set<nat>, depth: map<nat, nat>, d: Word, c: Word, lba: Word)
    requires VolInv(fs, dirs, depth) && d in dirs && c !in fs.inodes
    requires fs.start <= lba < fs.start + |fs.bits| && !fs.bits[lba - fs.start] && lba < |fs.disk|
    requires var fs1 := WithDir(fs, c, d, lba); fs' == fs1.(bits := fs.bits, inodes := fs1.inodes - {c})
    ensures VolInv(fs', dirs, depth) && FilesKept(fs, fs', dirs) && TreeOf(fs', dirs, depth) == TreeOf(fs, dirs, depth)
  {
    hide OwnInv, RootDir, ShapesOk, TreeInv, DirOk, DirMap, Sizes, OthersSame, FileOk, Contents, FilesKept, Entries,
         NewListing, Slots, DotsSector;
    VolFacts(fs, dirs, depth);
    MkdirHalf(fs, dirs, depth, c, d, lba);
    var fs1 := WithDir(fs, c, d, lba);
    HalfFacts(fs, fs1, dirs, depth, c, d, depth);
    assert fs1.inodes - {c} == fs.inodes;
    var t := TreeOf(fs, dirs, depth);
    assert t == t.(dirs := t.dirs[c := NewListing(c, d)] - {c}, files := t.files - {c});
    UndoReleases(fs, fs1, fs', c, lba, d);
    RootThere(fs);
    GoneStep(fs1, fs', dirs + {c}, depth, c);
    assert dirs + {c} - {c} == dirs;
    OwnSizes(fs');
    FilesKeptMore(fs1, fs', dirs, c, fs);
  }

  lemma UndoReleases(fs: Fs, fs1: Fs, fs': Fs, c: Word, lba: Word, d: Word)
    requires OwnInv(fs) && c !in fs.inodes && fs.start <= lba < fs.start + |fs.bits| && !fs.bits[lba - fs.start]
             && lba < |fs.disk|
    requires fs1 == WithDir(fs, c, d, lba) && Sizes(fs1)
    requires fs' == fs1.(bits := fs.bits, inodes := fs1.inodes - {c})
    ensures Released(fs1, fs', c)
  {
    hide Exclusive, BitsMatch, Slots, DotsSector;
    OneSlot(fs1.disk, 2 * REC, lba);
    var own := Own(fs1)[c];
    forall b | 0 <= b < |fs1.bits| ensures fs'.bits[b] == (fs1.bits[b] && fs1.start + b !in own) {
      if fs1.start + b in own {
        var k :| 0 <= k < |own| && own[k] == fs1.start + b;
      }
      assert own[0] == lba;
    }
  }

  /** An entry of inode c leaves directory d, and the inode is released. */
  ghost predicate Removal(fs: Fs, fs1: Fs, fs2: Fs, d: nat, c: Word, p: nat)
    requires OwnInv(fs) && DirOk(fs, d)
  {
    && EntryOf(fs, d, c, p) && Deleted(fs, fs1, d, p) && c in fs1.inodes && Released(fs1, fs2, c)
  }

  lemma DeletedFacts(fs: Fs, fs1: Fs, d: nat, c: Word, p: nat)
    requires OwnInv(fs) && DirOk(fs, d) && EntryOf(fs, d, c, p) && Deleted(fs, fs1, d, p)
    ensures 2 <= p < PLACES && DirChanged(fs, fs1, d, Entries(fs, d)[p := ZeroRec()])
    ensures d in fs1.inodes && Sizes(fs1) && DirMap(fs1, d) == DirMap(fs, d) - {NameOf(Entries(fs, d)[p])}
  {
    hide DirMap, Entries, OthersSame, NameOf, ZeroRec;
  }

  /** sys_unlink: the file is gone from the tree, all other files keep their bytes. */
  lemma UnlinkKeeps(fs: Fs, fs1: Fs, fs2: Fs, dirs: set<nat>, depth: map<nat, nat>, d: nat, n: Name, c: Word, p: nat)
    requires VolInv(fs, dirs, depth) && d in dirs && DirOk(fs, d) && Removal(fs, fs1, fs2, d, c, p)
    requires MayDrop(TreeOf(fs, dirs, depth), d, n)
    requires TreeOf(fs, dirs, depth).dirs[d][n] == Item(c, FT_REGULAR)
    ensures VolInv(fs2, dirs, depth) && FilesKept(fs, fs2, dirs)
    ensures TreeOf(fs2, dirs, depth) == DropFile(TreeOf(fs, dirs, depth), d, n)
  {
    hide OwnInv, RootDir, ShapesOk, TreeInv, DirOk, DirMap, Sizes, OthersSame, FileOk, Contents, DirChanged, Deleted,
         Released, EntryOf, FilesKept, Entries, NameOf;
    VolFacts(fs, dirs, depth);
    TreeDir(fs, dirs, depth, d);
    var t := TreeOf(fs, dirs, depth);
    DirFacts(fs, d);
    DeletedFacts(fs, fs1, d, c, p);
    EntryName(fs, dirs, depth, d, c, p);
    OneName(t, d, n, NameOf(Entries(fs, d)[p]), c);
    DirStep(fs, fs1, dirs, depth, d, Entries(fs, d)[p := ZeroRec()]);
    DropFileFits(t, d, n);
    FileIsNoRoot(t, d, n);
    GoneStep(fs1, fs2, dirs, depth, c);
    OwnSizes(fs2);
    assert c !in dirs;
    assert dirs - {c} == dirs;
    FilesKeptThen(fs, fs1, fs2, dirs);
    DropFileKeeps(t, d, n);
    assert t.dirs[d := t.dirs[d] - {n}] - {c} == t.dirs[d := t.dirs[d] - {n}];
  }

  lemma OneName(t: Tree, d: nat, n: Name, m: Name, c: nat)
    requires TreeInv(t) && Lists(t, d, m, c) && d in t.dirs && n in t.dirs[d] && Plain(n) && t.dirs[d][n].ino == c
    ensures m == n
  {
    assert Lists(t, d, n, c);
  }

  lemma FileIsNoRoot(t: Tree, d: nat, n: Name)
    requires MayDrop(t, d, n) && t.dirs[d][n].kind == FT_REGULAR
    ensures t.dirs[d][n].ino != 0
  {
    assert Fits(t, d, n);
  }

  /** sys_rmdir: the empty directory is gone from the tree, every file keeps its bytes. */
  lemma RmdirKeeps(fs: Fs, fs1: Fs, fs2: Fs, dirs: set<nat>, depth: map<nat, nat>, d: nat, n: Name, c: Word, p: nat)
    requires VolInv(fs, dirs, depth) && d in dirs && DirOk(fs, d) && Removal(fs, fs1, fs2, d, c, p)
    requires MayDrop(TreeOf(fs, dirs, depth), d, n) && EmptyDirAt(TreeOf(fs, dirs, depth), d, n)
    requires TreeOf(fs, dirs, depth).dirs[d][n] == Item(c, FT_DIRECTORY)
    ensures VolInv(fs2, dirs - {c}, depth - {c}) && FilesKept(fs, fs2, dirs)
    ensures TreeOf(fs2, dirs - {c}, depth - {c}) == DropDir(TreeOf(fs, dirs, depth), d, n)
  {
    hide OwnInv, RootDir, ShapesOk, TreeInv, DirOk, DirMap, Sizes, OthersSame, FileOk, Contents, DirChanged, Deleted,
         Released, EntryOf, FilesKept, Entries, NameOf;
    VolFacts(fs, dirs, depth);
    TreeDir(fs, dirs, depth, d);
    var t := TreeOf(fs, dirs, depth);
    DirFacts(fs, d);
    DeletedFacts(fs, fs1, d, c, p);
    EntryName(fs, dirs, depth, d, c, p);
    OneName(t, d, n, NameOf(Entries(fs, d)[p]), c);
    DirStep(fs, fs1, dirs, depth - {c}, d, Entries(fs, d)[p := ZeroRec()]);
    DropDirFacts(t, d, n);
    GoneStep(fs1, fs2, dirs, depth - {c}, c);
    OwnSizes(fs2);
    FilesKeptThen(fs, fs1, fs2, dirs);
    DropDirKeeps(t, d, n);
    assert t.files - {c} == t.files;
  }

  lemma FileIsThere(fs: Fs, f: nat)
    requires Sizes(fs) && FileOk(fs, f)
    ensures f in fs.inodes
  {
  }

  /** file_write: the tree stays, the file grows, all other files keep their bytes. */
  lemma WriteKeeps(fs: Fs, fs': Fs, dirs: set<nat>, depth: map<nat, nat>, f: nat, buf: seq<Byte>)
    requires VolInv(fs, dirs, depth) && f in fs.inodes && f !in dirs && FileOk(fs, f) && Appended(fs, fs', f, buf)
    ensures VolInv(fs', dirs, depth) && TreeOf(fs', dirs, depth) == TreeOf(fs, dirs, depth)
    ensures Contents(fs', f) == Contents(fs, f) + buf && FilesKept(fs, fs', dirs + {f})
  {
    hide OwnInv, RootDir, TreeInv, DirOk, DirMap, Sizes, OthersSame, FileOk, Contents;
    VolFacts(fs, dirs, depth);
    OwnSizes(fs');
    AllKept(fs, fs', f, dirs);
    FileIsThere(fs', f);
    SameKeys(fs, fs', f);
    assert TreeOf(fs', dirs, depth).dirs == TreeOf(fs, dirs, depth).dirs;
  }

  // ---------------------------------------------------------------------------------------
  // The steps as relations.

  datatype Vol = Vol(fs: Fs, dirs: set<nat>, depth: map<nat, nat>)

  ghost predicate Good(v: Vol) {
    VolInv(v.fs, v.dirs, v.depth)
  }

  ghost function Shape(v: Vol): Tree
    requires Sizes(v.fs)
  {
    TreeOf(v.fs, v.dirs, v.depth)
  }

  /** Nothing that a user could see happened. */
  ghost predicate Unseen(v: Vol, w: Vol)
    requires Good(v)
  {
    Good(w) && Shape(w) == Shape(v) && FilesKept(v.fs, w.fs, v.dirs) && w.fs.inodes.Keys == v.fs.inodes.Keys
  }

  ghost predicate Created(v: Vol, w: Vol, d: nat, name: Name, c: Word)
    requires Good(v)
  {
    && MayAdd(Shape(v), d, name, c) && Good(w) && Shape(w) == AddFile(Shape(v), d, name, c)
    && FilesKept(v.fs, w.fs, v.dirs) && c in w.fs.inodes && c !in w.dirs && Contents(w.fs, c) == []
  }

  ghost predicate MadeDir(v: Vol, w: Vol, d: nat, name: Name, c: Word)
    requires Good(v)
  {
    && MayAdd(Shape(v), d, name, c) && Good(w) && Shape(w) == AddDir(Shape(v), d, name, c)
    && FilesKept(v.fs, w.fs, v.dirs)
  }

  ghost predicate Unlinked(v: Vol, w: Vol, d: nat, n: Name)
    requires Good(v)
  {
    && MayDrop(Shape(v), d, n) && Good(w) && Shape(w) == DropFile(Shape(v), d, n)
    && FilesKept(v.fs, w.fs, v.dirs)
  }

  ghost predicate RemovedDir(v: Vol, w: Vol, d: nat, n: Name)
    requires Good(v)
  {
    && MayDrop(Shape(v), d, n) && Good(w) && Shape(w) == DropDir(Shape(v), d, n)
    && FilesKept(v.fs, w.fs, v.dirs)
  }

  ghost predicate Wrote(v: Vol, w: Vol, f: nat, buf: seq<Byte>)
    requires Good(v) && f in v.fs.inodes
  {
    && Good(w) && Shape(w) == Shape(v) && f in w.fs.inodes && Contents(w.fs, f) == Contents(v.fs, f) + buf
    && FilesKept(v.fs, w.fs, v.dirs + {f})
  }
}
