/** Model of src/fs/dir.c: searching, inserting, deleting and enumerating directory entries on the
    disk, for directories that stay in their 12 direct blocks. */
module Directories {
  import opened Results
  import opened Bytes
  import opened Bitmaps
  import opened Blocks
  import opened Partitions
  import opened Files
  import opened DirTables

  // ---------------------------------------------------------------------------------------
  // Entries in a sector.

  function RecAt(s: Sector, k: nat): Rec
    requires k < PER_BLOCK
  {
    s[REC * k..REC * k + REC]
  }

  function PutRec(s: Sector, k: nat, r: Rec): Sector
    requires k < PER_BLOCK
  {
    s[..REC * k] + r + s[REC * k + REC..]
  }

  lemma PutRecAt(s: Sector, k: nat, r: Rec, j: nat)
    requires k < PER_BLOCK && j < PER_BLOCK
    ensures RecAt(PutRec(s, k, r), j) == if j == k then r else RecAt(s, j)
  {
    var t := PutRec(s, k, r);
    if j < k {
      assert REC * j + REC <= REC * k;
      assert t[REC * j..REC * j + REC] == s[REC * j..REC * j + REC];
    } else if j > k {
      assert REC * k + REC <= REC * j;
      assert t[REC * j..REC * j + REC] == s[REC * j..REC * j + REC];
    } else {
      assert t[REC * k..REC * k + REC] == r;
    }
  }

  lemma ZeroSectorAt(j: nat)
    requires j < PER_BLOCK
    ensures RecAt(ZeroSector(), j) == ZeroRec()
  {
  }

  // ---------------------------------------------------------------------------------------
  // A directory on the disk.

  function TableAt(disk: seq<Sector>, sectors: seq<Word>, p: nat): Rec
    requires |sectors| == 13 && p < PLACES
  {
    var lba := sectors[p / PER_BLOCK];
    if lba == 0 || lba >= |disk| then ZeroRec() else RecAt(disk[lba], p % PER_BLOCK)
  }

  function TableOf(disk: seq<Sector>, sectors: seq<Word>): (t: Table)
    requires |sectors| == 13
    ensures |t| == PLACES
  {
    seq(PLACES, p requires 0 <= p < PLACES => TableAt(disk, sectors, p))
  }

  ghost function Entries(fs: Fs, d: nat): Table
    requires Sizes(fs) && d in fs.inodes
  {
    TableOf(fs.disk, fs.inodes[d].sectors)
  }

  /** Some entry of block b is live. */
  ghost predicate BlockLive(t: Table, b: nat)
    requires |t| == PLACES
  {
    exists p :: 0 <= p < PLACES && InBlock(p, b) && Live(t[p])
  }

  /** The record of directory d and its table t fit together: direct blocks only, size by live
      entries, every block but the first in use by one of them. */
  ghost predicate DirShape(ino: Inode, t: Table, d: nat) {
    && d < 0x1_0000_0000 && |ino.sectors| == 13 && |t| == PLACES
    && ino.sectors[0] != 0 && ino.sectors[12] == 0
    && TableOk(t, d) && ino.size == REC * LiveCount(t)
    && forall b :: 1 <= b < BLOCKS && ino.sectors[b] != 0 ==> BlockLive(t, b)
  }

  ghost predicate DirOk(fs: Fs, d: nat)
    requires Sizes(fs)
  {
    d in fs.inodes && DirShape(fs.inodes[d], Entries(fs, d), d)
  }

  /** The directory as the map it stands for. */
  ghost function DirMap(fs: Fs, d: nat): map<Name, Item>
    requires Sizes(fs) && d in fs.inodes
  {
    Listing(Entries(fs, d))
  }

  lemma OwnSizes(fs: Fs)
    requires OwnInv(fs)
    ensures Sizes(fs)
  {
  }

  lemma ShortName(name: Name)
    requires GoodName(name)
    ensures |name| <= 15
  {
  }

  lemma DirIsThere(fs: Fs, d: nat)
    requires Sizes(fs) && DirOk(fs, d)
    ensures d in fs.inodes && |fs.inodes[d].sectors| == 13
  {
  }

  lemma MayFacts(fs: Fs, d: nat, name: Name, ino: Word, kind: Word)
    requires Sizes(fs) && d in fs.inodes && MayInsert(fs, d, name, ino, kind)
    ensures GoodName(name) && |name| <= 15 && kind != FT_UNKNOWN
  {
  }

  lemma SectorOnDisk(fs: Fs, d: nat, b: nat)
    requires OwnInv(fs) && d in fs.inodes && b < BLOCKS && fs.inodes[d].sectors[b] != 0
    ensures fs.start <= fs.inodes[d].sectors[b] < |fs.disk| && fs.inodes[d].sectors[b] < fs.start + |fs.bits|
  {
    OwnSector(fs, d, b);
    HeldIsUsable(fs, d, b);
  }

  lemma OwnSector(fs: Fs, d: nat, b: nat)
    requires Sizes(fs) && d in fs.inodes && b < 13
    ensures |Own(fs)[d]| == SLOTS && Own(fs)[d][b] == fs.inodes[d].sectors[b]
  {
    assert Own(fs)[d][..13][b] == fs.inodes[d].sectors[b];
  }

  // ---------------------------------------------------------------------------------------
  // search_dir_entry.

  /** The entries of one sector, in order, compared with the name. */
  method FindName(buf: Sector, name: Name) returns (r: Option<nat>)
    requires GoodName(name)
    ensures r.Some? ==> r.value < PER_BLOCK && NameIs(RecAt(buf, r.value), name)
    ensures r.None? ==> forall k :: 0 <= k < PER_BLOCK ==> !NameIs(RecAt(buf, k), name)
  {
    hide NameIs;
    var dirEntryIdx := 0;
    while dirEntryIdx < PER_BLOCK
      invariant 0 <= dirEntryIdx <= PER_BLOCK
      invariant forall k :: 0 <= k < dirEntryIdx ==> !NameIs(RecAt(buf, k), name)
    {
      if NameIs(RecAt(buf, dirEntryIdx), name) {
        return Some(dirEntryIdx);
      }
      dirEntryIdx := dirEntryIdx + 1;
    }
    return None;
  }

  /** An entry of a block, by its place in the table. */
  lemma EntryInBlock(disk: seq<Sector>, sectors: seq<Word>, b: nat, k: nat)
    requires |sectors| == 13 && b < BLOCKS && k < PER_BLOCK && 0 < sectors[b] < |disk|
    ensures TableOf(disk, sectors)[PER_BLOCK * b + k] == RecAt(disk[sectors[b]], k)
  {
    var p := PER_BLOCK * b + k;
    assert p / PER_BLOCK == b && p % PER_BLOCK == k;
  }

  /** search_dir_entry: the entry with the name, if the directory lists it. */
  method SearchDirEntry(part: Partition, d: nat, name: Name) returns (r: Option<Rec>)
    requires part.Valid() && OwnInv(part.Model()) && DirOk(part.Model(), d)
    requires GoodName(name)
    ensures r.Some? <==> name in DirMap(part.Model(), d)
    ensures r.Some? ==> NameOf(r.value) == name && DirMap(part.Model(), d)[name] == Item(Ino(r.value), Type(r.value))
  {
    hide OwnInv, DirShape, Listing, NameIs, NameOf, Ino, Type, GoodName, NoneNamed, Entries;
    ShortName(name);
    ghost var t := Entries(part.Model(), d);
    DirFacts(part.Model(), d);
    NoneAtFirst(t, name);
    var blockIdx := 0;
    while blockIdx < BLOCKS
      invariant 0 <= blockIdx <= BLOCKS
      invariant NoneNamed(t, PER_BLOCK * blockIdx, name)
    {
      if part.inodes[d].sectors[blockIdx] == 0 {
        EmptyBlockNamesNothing(part.Model(), d, blockIdx, name);
      } else {
        r := SearchBlock(part, d, blockIdx, name);
        if r.Some? {
          return r;
        }
      }
      blockIdx := blockIdx + 1;
    }
    NotListed(t, d, name);
    return None;
  }

  /** search_dir_entry in one block. */
  method SearchBlock(part: Partition, d: nat, b: nat, name: Name) returns (r: Option<Rec>)
    requires part.Valid() && OwnInv(part.Model()) && DirOk(part.Model(), d) && GoodName(name)
    requires b < BLOCKS && part.inodes[d].sectors[b] != 0
    requires NoneNamed(Entries(part.Model(), d), PER_BLOCK * b, name)
    ensures r.Some? ==>
              && NameOf(r.value) == name && name in DirMap(part.Model(), d)
              && DirMap(part.Model(), d)[name] == Item(Ino(r.value), Type(r.value))
    ensures r.None? ==> NoneNamed(Entries(part.Model(), d), PER_BLOCK * (b + 1), name)
  {
    hide OwnInv, DirOk, DirMap, Entries, NameIs, NameOf, Ino, Type, GoodName, NoneNamed, RecAt, TableOk,
         Bitmap.Contents, Bitmap.Valid;
    ShortName(name);
    ghost var fs := part.Model();
    DirFacts(fs, d);
    SectorOnDisk(fs, d, b);
    var buf := part.IdeRead(part.inodes[d].sectors[b]);
    assert buf == fs.disk[fs.inodes[d].sectors[b]];
    var found := FindName(buf, name);
    match found {
      case Some(k) =>
        FoundHere(fs, d, b, k, name);
        return Some(RecAt(buf, k));
      case None =>
        BlockNamesNothing(fs, d, b, name);
        return None;
    }
  }

  lemma FoundHere(fs: Fs, d: nat, b: nat, k: nat, name: Name)
    requires Sizes(fs) && DirOk(fs, d) && b < BLOCKS && 0 < fs.inodes[d].sectors[b] < |fs.disk| && k < PER_BLOCK
    requires GoodName(name) && NameIs(RecAt(fs.disk[fs.inodes[d].sectors[b]], k), name)
    ensures var r := RecAt(fs.disk[fs.inodes[d].sectors[b]], k);
            NameOf(r) == name && name in DirMap(fs, d) && DirMap(fs, d)[name] == Item(Ino(r), Type(r))
  {
    hide TableOk, NameIs, NameOf, Listing, GoodName, RecAt, TableOf, Ino, Type;
    EntryInBlock(fs.disk, fs.inodes[d].sectors, b, k);
    ListedAt(Entries(fs, d), d, PER_BLOCK * b + k, name);
  }

  /** No entry before place n has the name. */
  ghost predicate NoneNamed(t: Table, n: nat, name: Name)
    requires |name| <= 15 && n <= |t|
  {
    forall p :: 0 <= p < n ==> !NameIs(t[p], name)
  }

  lemma NoneAtFirst(t: Table, name: Name)
    requires |name| <= 15
    ensures NoneNamed(t, 0, name)
  {
  }

  lemma DirFacts(fs: Fs, d: nat)
    requires Sizes(fs) && DirOk(fs, d)
    ensures d in fs.inodes && d < 0x1_0000_0000 && |fs.inodes[d].sectors| == 13 && fs.inodes[d].sectors[0] != 0
    ensures TableOk(Entries(fs, d), d) && |Entries(fs, d)| == PLACES
    ensures fs.inodes[d].size == REC * LiveCount(Entries(fs, d)) && fs.inodes[d].size % REC == 0
  {
    hide TableOk, Sizes;
    WholeEntries(LiveCount(Entries(fs, d)));
  }

  lemma WholeEntries(n: nat)
    ensures (REC * n) % REC == 0
  {
  }

  lemma BlockNamesNothing(fs: Fs, d: nat, b: nat, name: Name)
    requires Sizes(fs) && d in fs.inodes && b < BLOCKS && 0 < fs.inodes[d].sectors[b] < |fs.disk| && |name| <= 15
    requires forall k :: 0 <= k < PER_BLOCK ==> !NameIs(RecAt(fs.disk[fs.inodes[d].sectors[b]], k), name)
    requires NoneNamed(Entries(fs, d), PER_BLOCK * b, name)
    ensures NoneNamed(Entries(fs, d), PER_BLOCK * (b + 1), name)
  {
    hide NameIs, TableOf, RecAt;
    forall p | PER_BLOCK * b <= p < PER_BLOCK * (b + 1) ensures !NameIs(Entries(fs, d)[p], name) {
      EntryInBlock(fs.disk, fs.inodes[d].sectors, b, p - PER_BLOCK * b);
    }
  }

  lemma EmptyBlockNamesNothing(fs: Fs, d: nat, b: nat, name: Name)
    requires Sizes(fs) && d in fs.inodes && b < BLOCKS && fs.inodes[d].sectors[b] == 0 && GoodName(name)
    requires NoneNamed(Entries(fs, d), PER_BLOCK * b, name)
    ensures NoneNamed(Entries(fs, d), PER_BLOCK * (b + 1), name)
  {
    forall p | PER_BLOCK * b <= p < PER_BLOCK * (b + 1) ensures !NameIs(Entries(fs, d)[p], name) {
      assert p / PER_BLOCK == b;
      assert Entries(fs, d)[p] == ZeroRec();
      ZeroNamesNothing(name);
    }
  }

  lemma ListedAt(t: Table, self: Word, p: nat, name: Name)
    requires TableOk(t, self) && p < PLACES && GoodName(name) && NameIs(t[p], name)
    ensures Live(t[p]) && NameOf(t[p]) == name && name in Listing(t) && Listing(t)[name] == Item(Ino(t[p]), Type(t[p]))
  {
    NameIsNameOf(t[p], name);
    ZeroNamesNothing(name);
    ListingAt(t, self, p);
  }

  lemma ZeroNamesNothing(name: Name)
    requires GoodName(name)
    ensures !NameIs(ZeroRec(), name)
  {
    assert ZeroRec()[..|name|][0] == 0;
  }

  lemma NotListed(t: Table, self: Word, name: Name)
    requires TableOk(t, self) && GoodName(name) && |t| == PLACES && NoneNamed(t, PLACES, name)
    ensures name !in Listing(t)
  {
    if name in Listing(t) {
      var p := ListingFrom(t, name);
      NameIsNameOf(t[p], name);
    }
  }

  // ---------------------------------------------------------------------------------------
  // One block more or less in an inode.

  /** Slot k of inode i takes a free block. */
  lemma OneMoreBlock(fs: Fs, i: nat, k: nat, lba: Word)
    requires OwnInv(fs) && i in fs.inodes && k < BLOCKS && fs.inodes[i].sectors[k] == 0
    requires fs.start <= lba < fs.start + |fs.bits| && !fs.bits[lba - fs.start]
    ensures var fs' := fs.(bits := fs.bits[lba - fs.start := true],
                           inodes := fs.inodes[i := fs.inodes[i].(sectors := fs.inodes[i].sectors[k := lba])]);
            OwnInv(fs') && Own(fs')[i] == Own(fs)[i][k := lba] && OthersSame(fs, fs', i) && lba < |fs.disk|
  {
    hide Exclusive, BitsMatch, Reslot, Pending, Slots;
    var fs' := fs.(bits := fs.bits[lba - fs.start := true],
                   inodes := fs.inodes[i := fs.inodes[i].(sectors := fs.inodes[i].sectors[k := lba])]);
    var held, slots := Own(fs)[i], Slots(fs'.disk, fs'.inodes[i]);
    SlotsSet(fs.disk, fs.inodes[i], k, lba);
    FirstPending(fs, lba);
    FreeBlockIsUsable(fs, lba);
    assert slots[k] == lba;
    assert fs.start > 0;
    PendingReslot(Own(fs), fs.start, fs.usable, fs.bits, fs'.bits, [lba], i, slots);
    SameDisk(fs, i);
    OwnAfter(fs, fs', i);
    OthersFromWrites(fs, fs', i);
  }

  lemma SlotsSet(disk: seq<Sector>, ino: Inode, k: nat, lba: Word)
    requires |ino.sectors| == 13 && k < BLOCKS
    ensures Slots(disk, ino.(sectors := ino.sectors[k := lba])) == Slots(disk, ino)[k := lba]
    ensures Slots(disk, ino)[k] == ino.sectors[k]
  {
  }

  /** Slot k of inode i gives its block back. */
  lemma OneLessBlock(fs: Fs, i: nat, k: nat, lba: Word)
    requires OwnInv(fs) && i in fs.inodes && k < BLOCKS && fs.inodes[i].sectors[k] == lba && lba != 0
    ensures fs.start <= lba < fs.start + |fs.bits|
    ensures var fs' := fs.(bits := fs.bits[lba - fs.start := false],
                           inodes := fs.inodes[i := fs.inodes[i].(sectors := fs.inodes[i].sectors[k := 0])]);
            OwnInv(fs') && Own(fs')[i] == Own(fs)[i][k := 0] && OthersSame(fs, fs', i)
  {
    hide Slots;
    SectorOnDisk(fs, i, k);
    var fs' := fs.(bits := fs.bits[lba - fs.start := false],
                   inodes := fs.inodes[i := fs.inodes[i].(sectors := fs.inodes[i].sectors[k := 0])]);
    SlotsSet(fs.disk, fs.inodes[i], k, 0);
    DropReslot(Own(fs), fs.start, fs.usable, fs.bits, i, k, lba);
    hide Exclusive, BitsMatch, Reslot;
    SameDisk(fs, i);
    OwnAfter(fs, fs', i);
    OthersFromWrites(fs, fs', i);
  }

  lemma OnlyThere(s: seq<Word>, k: nat, a: int)
    requires k < |s| && a in s && a !in s[k := 0]
    ensures s[k] == a
  {
    var l :| 0 <= l < |s| && s[l] == a;
    assert s[k := 0][l] == if l == k then 0 else a;
  }

  lemma DropReslot(own: map<nat, seq<Word>>, start: nat, usable: nat, bits: seq<bool>, i: nat, k: nat, lba: Word)
    requires Exclusive(own) && BitsMatch(own, start, usable, bits) && start > 0
    requires i in own && k < |own[i]| && own[i][k] == lba && start <= lba < start + |bits|
    ensures Reslot(own, start, usable, bits, i, own[i][k := 0], bits[lba - start := false])
  {
    var slots := own[i][k := 0];
    assert lba in own[i];
    assert Reaches(own, lba);
    forall b | 0 <= b < |bits|
      ensures bits[lba - start := false][b] ==
                (if start + b in slots then true else if start + b in own[i] then false else bits[b])
    {
      if start + b in slots {
        var l :| 0 <= l < |slots| && slots[l] == start + b;
        assert own[i][l] == start + b && l != k;
        assert start + b in own[i];
        assert Reaches(own, start + b);
      } else if start + b in own[i] {
        OnlyThere(own[i], k, start + b);
      }
    }
  }

  /** A write to a sector of inode i, with a new size: owners and other inodes stay. */
  lemma SectorWritten(fs: Fs, i: nat, k: nat, sector: Sector, size: nat)
    requires OwnInv(fs) && i in fs.inodes && k < BLOCKS && fs.inodes[i].sectors[k] != 0
    ensures fs.inodes[i].sectors[k] < |fs.disk|
    ensures var fs' := fs.(disk := fs.disk[fs.inodes[i].sectors[k] := sector],
                           inodes := fs.inodes[i := fs.inodes[i].(size := size)]);
            OwnInv(fs') && Own(fs') == Own(fs) && OthersSame(fs, fs', i)
  {
    hide Exclusive, BitsMatch, Slots, WritesOwn;
    SectorOnDisk(fs, i, k);
    var lba := fs.inodes[i].sectors[k];
    var fs' := fs.(disk := fs.disk[lba := sector], inodes := fs.inodes[i := fs.inodes[i].(size := size)]);
    SameDisk(fs, i);
    DataIsOwn(fs, fs.disk, i, k, sector);
    OwnSeparate(fs, i);
    SlotsAfterData(fs.disk, fs.inodes[i], Own(fs)[i], lba, sector, k);
    SlotsOfSize(fs'.disk, fs.inodes[i], size);
    forall j | j in fs'.inodes ensures |fs'.inodes[j].sectors| == 13 {
    }
    OthersFromWrites(fs, fs', i);
    SameOwners(fs, fs', i);
  }

  lemma SameOwners(fs: Fs, fs': Fs, i: nat)
    requires Sizes(fs) && Sizes(fs') && OthersSame(fs, fs', i) && i in fs.inodes && i in fs'.inodes
    requires Slots(fs'.disk, fs'.inodes[i]) == Slots(fs.disk, fs.inodes[i])
    ensures Own(fs') == Own(fs)
  {
    hide Slots;
    forall j | j in fs.inodes ensures j in fs'.inodes && Own(fs')[j] == Own(fs)[j] {
    }
    assert Own(fs').Keys == Own(fs).Keys;
  }

  // ---------------------------------------------------------------------------------------
  // sync_dir_entry.

  /** Writing an entry in place k of block b changes place 21 b + k of the table. */
  lemma TablePut(disk: seq<Sector>, sectors: seq<Word>, b: nat, k: nat, r: Rec)
    requires |sectors| == 13 && b < BLOCKS && k < PER_BLOCK && 0 < sectors[b] < |disk|
    requires forall c :: 0 <= c < BLOCKS && c != b ==> sectors[c] != sectors[b]
    ensures TableOf(disk[sectors[b] := PutRec(disk[sectors[b]], k, r)], sectors) ==
              TableOf(disk, sectors)[PER_BLOCK * b + k := r]
  {
    var disk' := disk[sectors[b] := PutRec(disk[sectors[b]], k, r)];
    var u, v := TableOf(disk', sectors), TableOf(disk, sectors)[PER_BLOCK * b + k := r];
    forall p | 0 <= p < PLACES ensures u[p] == v[p] {
      PutRecAt(disk[sectors[b]], k, r, p % PER_BLOCK);
      assert p / PER_BLOCK == b && p % PER_BLOCK == k <==> p == PER_BLOCK * b + k;
    }
  }

  /** A fresh block with one entry in front. */
  lemma TableNew(disk: seq<Sector>, sectors: seq<Word>, b: nat, lba: Word, r: Rec)
    requires |sectors| == 13 && b < BLOCKS && sectors[b] == 0 && 0 < lba < |disk|
    requires forall c :: 0 <= c < BLOCKS ==> sectors[c] != lba
    ensures TableOf(disk[lba := PutRec(ZeroSector(), 0, r)], sectors[b := lba]) ==
            TableOf(disk, sectors)[PER_BLOCK * b := r]
  {
    var u, v := TableOf(disk[lba := PutRec(ZeroSector(), 0, r)], sectors[b := lba]),
        TableOf(disk, sectors)[PER_BLOCK * b := r];
    forall p | 0 <= p < PLACES ensures u[p] == v[p] {
      PutRecAt(ZeroSector(), 0, r, p % PER_BLOCK);
      ZeroSectorAt(p % PER_BLOCK);
      assert p / PER_BLOCK == b && p % PER_BLOCK == 0 <==> p == PER_BLOCK * b;
    }
  }

  lemma SectorsDiffer(fs: Fs, d: nat, b: nat)
    requires OwnInv(fs) && d in fs.inodes && b < BLOCKS && fs.inodes[d].sectors[b] != 0
    ensures forall c :: 0 <= c < BLOCKS && c != b ==> fs.inodes[d].sectors[c] != fs.inodes[d].sectors[b]
  {
    forall c | 0 <= c < BLOCKS && c != b ensures fs.inodes[d].sectors[c] != fs.inodes[d].sectors[b] {
      assert Own(fs)[d][..13][c] == fs.inodes[d].sectors[c];
      assert Own(fs)[d][..13][b] == fs.inodes[d].sectors[b];
    }
  }

  /** The directory d changed its table from t to u and nothing else in the file system did. */
  ghost predicate DirChanged(fs: Fs, fs': Fs, d: nat, u: Table)
    requires OwnInv(fs)
  {
    && OwnInv(fs') && DirOk(fs', d) && OthersSame(fs, fs', d) && Entries(fs', d) == u
    && d in fs.inodes && fs'.inodes[d].sectors[0] == fs.inodes[d].sectors[0]
  }

  /** One more live entry, in a block the directory has or takes. */
  lemma ShapeInsert(ino: Inode, t: Table, d: nat, p: nat, r: Rec, sectors: seq<Word>)
    requires DirShape(ino, t, d) && p < PLACES && !Live(t[p]) && Live(r) && TableOk(t[p := r], d)
    requires |sectors| == 13 && sectors[0] == ino.sectors[0] && sectors[12] == ino.sectors[12]
    requires forall b :: 0 <= b < BLOCKS && !InBlock(p, b) ==> sectors[b] == ino.sectors[b]
    ensures DirShape(Inode(ino.size + REC, sectors), t[p := r], d)
  {
    hide TableOk, Live;
    CountAfter(t, p, r);
    forall b | 1 <= b < BLOCKS && sectors[b] != 0 ensures BlockLive(t[p := r], b) {
      if InBlock(p, b) {
        assert Live(t[p := r][p]);
      } else {
        StillLive(t, p, r, b);
      }
    }
  }

  /** fs with the entry in place k of the sector lba of directory d. */
  ghost function PutOld(fs: Fs, d: nat, b: nat, k: nat, r: Rec): Fs
    requires Sizes(fs) && d in fs.inodes && b < BLOCKS && k < PER_BLOCK && fs.inodes[d].sectors[b] < |fs.disk|
  {
    var lba := fs.inodes[d].sectors[b];
    fs.(disk := fs.disk[lba := PutRec(fs.disk[lba], k, r)],
        inodes := fs.inodes[d := fs.inodes[d].(size := fs.inodes[d].size + REC)])
  }

  /** fs with the entry in front of the fresh block lba of directory d. */
  ghost function PutNew(fs: Fs, d: nat, b: nat, lba: Word, r: Rec): Fs
    requires Sizes(fs) && d in fs.inodes && b < BLOCKS && fs.start <= lba < |fs.disk| && lba < fs.start + |fs.bits|
  {
    fs.(disk := fs.disk[lba := PutRec(ZeroSector(), 0, r)], bits := fs.bits[lba - fs.start := true],
        inodes := fs.inodes[d := Inode(fs.inodes[d].size + REC, fs.inodes[d].sectors[b := lba])])
  }

  /** The new entry goes into a dead place of a block the directory has. */
  lemma InsertOld(fs: Fs, d: nat, b: nat, k: nat, r: Rec)
    requires OwnInv(fs) && DirOk(fs, d) && b < BLOCKS && k < PER_BLOCK && fs.inodes[d].sectors[b] != 0
    requires !Live(Entries(fs, d)[PER_BLOCK * b + k]) && Live(r)
    requires TableOk(Entries(fs, d)[PER_BLOCK * b + k := r], d)
    ensures fs.inodes[d].sectors[b] < |fs.disk|
    ensures DirChanged(fs, PutOld(fs, d, b, k, r), d, Entries(fs, d)[PER_BLOCK * b + k := r])
  {
    hide Exclusive, BitsMatch, OthersSame, TableOk, Slots, TableOf, Live, PutRec, DirShape;
    var lba, ino := fs.inodes[d].sectors[b], fs.inodes[d];
    SectorOnDisk(fs, d, b);
    SectorsDiffer(fs, d, b);
    SectorWritten(fs, d, b, PutRec(fs.disk[lba], k, r), ino.size + REC);
    TablePut(fs.disk, ino.sectors, b, k, r);
    DirFacts(fs, d);
    ShapeInsert(ino, Entries(fs, d), d, PER_BLOCK * b + k, r, ino.sectors);
  }

  lemma StillLive(t: Table, p: nat, r: Rec, c: nat)
    requires |t| == PLACES && p < PLACES && Live(r) && BlockLive(t, c)
    ensures BlockLive(t[p := r], c)
  {
    var q :| 0 <= q < PLACES && InBlock(q, c) && Live(t[q]);
    assert Live(t[p := r][q]);
  }

  /** The new entry opens block b of the directory. */
  lemma InsertNew(fs: Fs, d: nat, b: nat, lba: Word, r: Rec)
    requires OwnInv(fs) && DirOk(fs, d) && 1 <= b < BLOCKS && fs.inodes[d].sectors[b] == 0 && Live(r)
    requires fs.start <= lba < fs.start + |fs.bits| && !fs.bits[lba - fs.start]
    requires TableOk(Entries(fs, d)[PER_BLOCK * b := r], d)
    ensures lba < |fs.disk|
    ensures DirChanged(fs, PutNew(fs, d, b, lba, r), d, Entries(fs, d)[PER_BLOCK * b := r])
  {
    hide Exclusive, BitsMatch, OthersSame, TableOk, Slots, TableOf, Live, PutRec, DirShape;
    var ino := fs.inodes[d];
    DirFacts(fs, d);
    OneMoreBlock(fs, d, b, lba);
    var fs1 := fs.(bits := fs.bits[lba - fs.start := true],
                   inodes := fs.inodes[d := ino.(sectors := ino.sectors[b := lba])]);
    SectorsDiffer(fs1, d, b);
    SectorWritten(fs1, d, b, PutRec(ZeroSector(), 0, r), ino.size + REC);
    var fs2 := fs1.(disk := fs1.disk[lba := PutRec(ZeroSector(), 0, r)],
                    inodes := fs1.inodes[d := fs1.inodes[d].(size := ino.size + REC)]);
    assert fs2.inodes == fs.inodes[d := Inode(ino.size + REC, ino.sectors[b := lba])];
    OthersThen(fs, fs1, fs2, d);
    forall c | 0 <= c < BLOCKS ensures ino.sectors[c] != lba {
      assert c != b ==> ino.sectors[c] == fs1.inodes[d].sectors[c];
    }
    TableNew(fs.disk, ino.sectors, b, lba, r);
    DeadBlock(fs, d, b, PER_BLOCK * b);
    ShapeInsert(ino, Entries(fs, d), d, PER_BLOCK * b, r, ino.sectors[b := lba]);
  }

  lemma DeadBlock(fs: Fs, d: nat, b: nat, p: nat)
    requires Sizes(fs) && d in fs.inodes && b < BLOCKS && fs.inodes[d].sectors[b] == 0 && InBlock(p, b)
    ensures p < PLACES && Entries(fs, d)[p] == ZeroRec() && !Live(Entries(fs, d)[p])
  {
    assert p / PER_BLOCK == b;
    ZeroIsDead();
  }

  ghost predicate FirstDeadIn(buf: Sector, r: Option<nat>) {
    && (r.Some? ==> r.value < PER_BLOCK && !Live(RecAt(buf, r.value)) && forall k :: 0 <= k < r.value ==>
       Live(RecAt(buf, k)))
    && (r.None? ==> forall k :: 0 <= k < PER_BLOCK ==> Live(RecAt(buf, k)))
  }

  /** The first dead entry of a sector. */
  method FindDead(buf: Sector) returns (r: Option<nat>)
    ensures FirstDeadIn(buf, r)
  {
    hide Live;
    var dirEntryIdx := 0;
    while dirEntryIdx < PER_BLOCK
      invariant 0 <= dirEntryIdx <= PER_BLOCK
      invariant forall k :: 0 <= k < dirEntryIdx ==> Live(RecAt(buf, k))
    {
      if !Live(RecAt(buf, dirEntryIdx)) {
        return Some(dirEntryIdx);
      }
      dirEntryIdx := dirEntryIdx + 1;
    }
    return None;
  }

  lemma FirstDeadIs(t: Table, p: nat)
    requires p < |t| && !Live(t[p]) && LiveBefore(t, p)
    ensures FirstDead(t) == Some(p)
  {
  }

  /** The rounds of sync_dir_entry over the 12 direct blocks: the entry takes the first dead place, opening a
      new block if that place has none. Done(false): all 252 places are taken. */
  method SyncDirect(part: Partition, d: nat, name: Name, ino: Word, kind: Word) returns (r: Outcome<bool>)
    requires part.Valid() && OwnInv(part.Model()) && DirOk(part.Model(), d)
             && MayInsert(part.Model(), d, name, ino, kind)
    modifies part, part.disk, part.blockBitmap.bits
    ensures part.Valid() && !r.AssertFailed?
    ensures part.disk.Length > 0 && part.disk[0] == old(part.disk[0])
    ensures r.Exhausted? ==> ClearBits(old(part.Model()).bits) == 0
    ensures r == Done(false) <==> FirstDead(old(Entries(part.Model(), d))).None?
    ensures r == Done(false) ==> part.Model() == old(part.Model())
    ensures r == Done(true) ==> Inserted(old(part.Model()), part.Model(), d, name, ino, kind)
  {
    hide OwnInv, DirOk, Entries, FirstDead, LiveBefore, Inserted, MayInsert, GoodName, LiveCount, TableOk, Sizes,
         Bitmap.Contents, Bitmap.Valid;
    DirIsThere(part.Model(), d);
    MayFacts(part.Model(), d, name, ino, kind);
    ghost var fs := part.Model();
    ghost var t := Entries(fs, d);
    OwnSizes(fs);
    StartPositive(fs);
    DirFacts(fs, d);
    if part.inodes[d].size % REC != 0 {
      return AssertFailed;
    }
    NoneLiveBefore(t);
    var blockIdx := 0;
    while blockIdx < BLOCKS
      invariant 0 <= blockIdx <= BLOCKS && part.Valid() && part.Model() == fs && part.disk[0] == old(part.disk[0])
      invariant LiveBefore(t, PER_BLOCK * blockIdx)
    {
      r := PutOrOpen(part, d, blockIdx, name, ino, kind);
      if r != Done(false) {
        return r;
      }
      blockIdx := blockIdx + 1;
    }
    AllLive(t);
    return Done(false);
  }

  /** One round of the search for a dead place. Done(false): block b is full. */
  method PutOrOpen(part: Partition, d: nat, b: nat, name: Name, ino: Word, kind: Word) returns (r: Outcome<bool>)
    requires part.Valid() && OwnInv(part.Model()) && DirOk(part.Model(), d)
             && MayInsert(part.Model(), d, name, ino, kind)
    requires b < BLOCKS && LiveBefore(Entries(part.Model(), d), PER_BLOCK * b)
    modifies part, part.disk, part.blockBitmap.bits
    ensures part.Valid() && !r.AssertFailed?
    ensures part.disk.Length > 0 && part.disk[0] == old(part.disk[0])
    ensures r.Exhausted? ==> ClearBits(old(part.Model()).bits) == 0
    ensures r != Done(false) ==> FirstDead(old(Entries(part.Model(), d))).Some?
    ensures r == Done(true) ==> Inserted(old(part.Model()), part.Model(), d, name, ino, kind)
    ensures r == Done(false) ==>
            part.Model() == old(part.Model()) && LiveBefore(Entries(part.Model(), d), PER_BLOCK * (b + 1))
  {
    hide OwnInv, DirOk, Entries, FirstDead, LiveBefore, Inserted, MayInsert, GoodName, Bitmap.Contents, Bitmap.Valid;
    DirIsThere(part.Model(), d);
    MayFacts(part.Model(), d, name, ino, kind);
    ghost var fs := part.Model();
    DirFacts(fs, d);
    if part.inodes[d].sectors[b] == 0 {
      r := OpenBlock(part, d, b, name, ino, kind);
    } else {
      var put := PutInBlock(part, d, b, name, ino, kind);
      if put {
        InsertedSome(fs, part.Model(), d, name, ino, kind);
      }
      r := Done(put);
    }
  }

  /** What inserting comes to, in place p. */
  ghost predicate Inserted(fs: Fs, fs': Fs, d: nat, name: Name, ino: Word, kind: Word)
    requires OwnInv(fs) && DirOk(fs, d) && |name| <= 16
  {
    && FirstDead(Entries(fs, d)).Some?
    && DirChanged(fs, fs', d, Entries(fs, d)[FirstDead(Entries(fs, d)).value := MakeRec(name, ino, kind)])
    && DirMap(fs', d) == DirMap(fs, d)[name := Item(ino, kind)]
  }

  lemma InsertedSome(fs: Fs, fs': Fs, d: nat, name: Name, ino: Word, kind: Word)
    requires OwnInv(fs) && DirOk(fs, d) && |name| <= 16 && Inserted(fs, fs', d, name, ino, kind)
    ensures FirstDead(Entries(fs, d)).Some?
  {
  }

  /** The name is free in the directory, and so is the inode among its entries. */
  ghost predicate MayInsert(fs: Fs, d: nat, name: Name, ino: Word, kind: Word)
    requires Sizes(fs) && d in fs.inodes
  {
    && GoodName(name) && name !in DirMap(fs, d) && kind != FT_UNKNOWN
    && forall q :: 2 <= q < PLACES && Live(Entries(fs, d)[q]) ==> Ino(Entries(fs, d)[q]) != ino
  }

  lemma PlaceFree(fs: Fs, d: nat, p: nat, name: Name, ino: Word, kind: Word)
    requires Sizes(fs) && DirOk(fs, d) && MayInsert(fs, d, name, ino, kind) && p < PLACES
    requires !Live(Entries(fs, d)[p]) && LiveBefore(Entries(fs, d), p)
    ensures var r := MakeRec(name, ino, kind);
            && Live(r) && FirstDead(Entries(fs, d)) == Some(p) && TableOk(Entries(fs, d)[p := r], d)
            && Listing(Entries(fs, d)[p := r]) == DirMap(fs, d)[name := Item(ino, kind)]
  {
    hide TableOk, Listing, LiveCount, TableOf, GoodName, FirstDead, LiveBefore, NameIs, MakeRec;
    DirIsThere(fs, d);
    MayFacts(fs, d, name, ino, kind);
    DirFacts(fs, d);
    MakeRecFields(name, ino, kind);
    FirstDeadIs(Entries(fs, d), p);
    InsertMaps(Entries(fs, d), d, p, name, ino, kind);
  }

  lemma InsertedOld(fs: Fs, d: nat, b: nat, k: nat, name: Name, ino: Word, kind: Word)
    requires OwnInv(fs) && DirOk(fs, d) && MayInsert(fs, d, name, ino, kind)
    requires b < BLOCKS && k < PER_BLOCK && fs.inodes[d].sectors[b] != 0
    requires !Live(Entries(fs, d)[PER_BLOCK * b + k]) && LiveBefore(Entries(fs, d), PER_BLOCK * b + k)
    ensures |name| <= 15 && fs.inodes[d].sectors[b] < |fs.disk|
    ensures Inserted(fs, PutOld(fs, d, b, k, MakeRec(name, ino, kind)), d, name, ino, kind)
  {
    hide OwnInv, DirOk, DirMap, TableOk, Listing, Entries, GoodName, Live, PutOld, FirstDead, LiveBefore, MakeRec,
         DirChanged;
    OwnSizes(fs);
    DirIsThere(fs, d);
    MayFacts(fs, d, name, ino, kind);
    var rec := MakeRec(name, ino, kind);
    PlaceFree(fs, d, PER_BLOCK * b + k, name, ino, kind);
    InsertOld(fs, d, b, k, rec);
    ChangedMap(fs, PutOld(fs, d, b, k, rec), d, Entries(fs, d)[PER_BLOCK * b + k := rec]);
  }

  lemma InsertedNew(fs: Fs, d: nat, b: nat, lba: Word, name: Name, ino: Word, kind: Word)
    requires OwnInv(fs) && DirOk(fs, d) && MayInsert(fs, d, name, ino, kind)
    requires 1 <= b < BLOCKS && fs.inodes[d].sectors[b] == 0 && LiveBefore(Entries(fs, d), PER_BLOCK * b)
    requires fs.start <= lba < fs.start + |fs.bits| && !fs.bits[lba - fs.start]
    ensures |name| <= 15 && lba < |fs.disk|
    ensures Inserted(fs, PutNew(fs, d, b, lba, MakeRec(name, ino, kind)), d, name, ino, kind)
  {
    hide Exclusive, BitsMatch, DirOk, DirMap, TableOk, Listing, Entries, GoodName, Live, PutNew, FirstDead, LiveBefore,
         MakeRec, DirChanged;
    OwnSizes(fs);
    DirIsThere(fs, d);
    MayFacts(fs, d, name, ino, kind);
    var rec := MakeRec(name, ino, kind);
    DeadBlock(fs, d, b, PER_BLOCK * b);
    PlaceFree(fs, d, PER_BLOCK * b, name, ino, kind);
    InsertNew(fs, d, b, lba, rec);
    ChangedMap(fs, PutNew(fs, d, b, lba, rec), d, Entries(fs, d)[PER_BLOCK * b := rec]);
  }

  /** All earlier places are taken and the directory has no block b: the entry opens one. */
  method OpenBlock(part: Partition, d: nat, b: nat, name: Name, ino: Word, kind: Word) returns (r: Outcome<bool>)
    requires part.Valid() && OwnInv(part.Model()) && DirOk(part.Model(), d)
             && MayInsert(part.Model(), d, name, ino, kind)
    requires b < BLOCKS && part.inodes[d].sectors[b] == 0 && LiveBefore(Entries(part.Model(), d), PER_BLOCK * b)
    modifies part, part.disk, part.blockBitmap.bits
    ensures part.Valid() && (r == Done(true) || r.Exhausted?)
    ensures part.disk.Length > 0 && part.disk[0] == old(part.disk[0])
    ensures r.Exhausted? ==> ClearBits(old(part.Model()).bits) == 0
    ensures r.Done? ==> Inserted(old(part.Model()), part.Model(), d, name, ino, kind)
    ensures FirstDead(old(Entries(part.Model(), d))).Some?
  {
    hide OwnInv, DirOk, DirMap, MayInsert, TableOk, Entries, GoodName, Live, PutRec, FirstDead, LiveBefore, MakeRec,
         Inserted, PutNew, ZeroSector, Sizes, Bitmap.Contents, Bitmap.Valid;
    DirIsThere(part.Model(), d);
    MayFacts(part.Model(), d, name, ino, kind);
    ghost var fs := part.Model();
    OwnSizes(fs);
    StartPositive(fs);
    DirFacts(fs, d);
    DeadBlock(fs, d, b, PER_BLOCK * b);
    PlaceFree(fs, d, PER_BLOCK * b, name, ino, kind);
    var rec := MakeRec(name, ino, kind);
    var lba :- part.BlockBitmapAlloc();
    InsertedNew(fs, d, b, lba, name, ino, kind);
    StoreNew(part, d, b, lba, rec, fs);
    return Done(true);
  }

  /** The entry goes into place k of block b, the first dead place. */
  method PutHere(part: Partition, d: nat, b: nat, k: nat, buf: Sector, name: Name, ino: Word, kind: Word)
    requires part.Valid() && OwnInv(part.Model()) && DirOk(part.Model(), d)
             && MayInsert(part.Model(), d, name, ino, kind)
    requires b < BLOCKS && k < PER_BLOCK && 0 < part.inodes[d].sectors[b] < part.disk.Length
    requires buf == part.disk[part.inodes[d].sectors[b]]
    requires DeadAt(part.Model(), d, b, k)
    modifies part`inodes, part.disk
    ensures part.Valid() && Inserted(old(part.Model()), part.Model(), d, name, ino, kind)
    ensures part.disk.Length > 0 && part.disk[0] == old(part.disk[0])
  {
    hide OwnInv, DirMap, MayInsert, TableOk, Entries, GoodName, Live, FirstDead, LiveBefore, MakeRec, Inserted, PutOld,
         Bitmap.Contents, Bitmap.Valid;
    DirIsThere(part.Model(), d);
    MayFacts(part.Model(), d, name, ino, kind);
    InsertedOld(part.Model(), d, b, k, name, ino, kind);
    StoreOld(part, d, b, k, buf, MakeRec(name, ino, kind));
  }

  /** The first dead place of block b, where all earlier places are taken. */
  method PlaceIn(part: Partition, d: nat, b: nat) returns (buf: Sector, k: Option<nat>)
    requires part.Valid() && OwnInv(part.Model()) && DirOk(part.Model(), d)
    requires b < BLOCKS && part.inodes[d].sectors[b] != 0 && LiveBefore(Entries(part.Model(), d), PER_BLOCK * b)
    ensures part.inodes[d].sectors[b] < part.disk.Length && buf == part.disk[part.inodes[d].sectors[b]]
    ensures k.Some? ==> k.value < PER_BLOCK
    ensures k.Some? ==> DeadAt(part.Model(), d, b, k.value)
    ensures k.None? ==> LiveBefore(Entries(part.Model(), d), PER_BLOCK * (b + 1))
  {
    hide OwnInv, DirOk, TableOk, Entries, Live, LiveBefore, RecAt, FirstDeadIn, Sizes, Bitmap.Contents, Bitmap.Valid;
    ghost var fs := part.Model();
    DirFacts(fs, d);
    SectorOnDisk(fs, d, b);
    buf := part.IdeRead(part.inodes[d].sectors[b]);
    k := FindDead(buf);
    assert buf == fs.disk[fs.inodes[d].sectors[b]];
    LiveUpTo(fs, d, b, k);
  }

  /** Place k of block b is the first dead one. */
  ghost predicate DeadAt(fs: Fs, d: nat, b: nat, k: nat)
    requires Sizes(fs) && d in fs.inodes && b < BLOCKS && k < PER_BLOCK
  {
    !Live(Entries(fs, d)[PER_BLOCK * b + k]) && LiveBefore(Entries(fs, d), PER_BLOCK * b + k)
  }

  /** All earlier places are taken and the directory has block b: the entry goes there if it can. */
  method PutInBlock(part: Partition, d: nat, b: nat, name: Name, ino: Word, kind: Word) returns (put: bool)
    requires part.Valid() && OwnInv(part.Model()) && DirOk(part.Model(), d)
             && MayInsert(part.Model(), d, name, ino, kind)
    requires b < BLOCKS && part.inodes[d].sectors[b] != 0 && LiveBefore(Entries(part.Model(), d), PER_BLOCK * b)
    modifies part`inodes, part.disk
    ensures part.Valid()
    ensures part.disk.Length > 0 && part.disk[0] == old(part.disk[0])
    ensures put ==> Inserted(old(part.Model()), part.Model(), d, name, ino, kind)
    ensures !put ==> part.Model() == old(part.Model()) && LiveBefore(Entries(part.Model(), d), PER_BLOCK * (b + 1))
  {
    hide OwnInv, DirMap, MayInsert, TableOk, Entries, GoodName, LiveBefore, Inserted, DeadAt, Sizes, Bitmap.Contents,
         Bitmap.Valid;
    DirIsThere(part.Model(), d);
    MayFacts(part.Model(), d, name, ino, kind);
    var buf, k := PlaceIn(part, d, b);
    put := k.Some?;
    if put {
      PutHere(part, d, b, k.value, buf, name, ino, kind);
    }
  }

  /** The sector with the new entry goes to the disk, and the record of the directory follows. */
  method StoreOld(part: Partition, d: nat, b: nat, k: nat, buf: Sector, rec: Rec)
    requires part.Valid() && d in part.inodes && b < BLOCKS && k < PER_BLOCK
             && 0 < part.inodes[d].sectors[b] < part.disk.Length
    requires buf == part.disk[part.inodes[d].sectors[b]]
    modifies part`inodes, part.disk
    ensures part.Valid() && part.Model() == PutOld(old(part.Model()), d, b, k, rec)
    ensures part.disk.Length > 0 && part.disk[0] == old(part.disk[0])
  {
    hide PutRec;
    var ino := part.inodes[d];
    part.IdeWrite(ino.sectors[b], PutRec(buf, k, rec));
    part.SetInode(d, ino.(size := ino.size + REC));
  }

  /** The fresh block, taken since fs, becomes block b of the directory with the entry in front. */
  method StoreNew(part: Partition, d: nat, b: nat, lba: Word, rec: Rec, ghost fs: Fs)
    requires part.Valid() && d in part.inodes && b < BLOCKS && 0 < lba < part.disk.Length
    requires Sizes(fs) && fs.start <= lba < fs.start + |fs.bits|
             && part.Model() == fs.(bits := fs.bits[lba - fs.start := true])
    modifies part`inodes, part.disk
    ensures part.Valid() && part.Model() == PutNew(fs, d, b, lba, rec)
    ensures part.disk.Length > 0 && part.disk[0] == old(part.disk[0])
  {
    hide PutRec;
    var ino := part.inodes[d];
    part.IdeWrite(lba, PutRec(ZeroSector(), 0, rec));
    part.SetInode(d, Inode(ino.size + REC, ino.sectors[b := lba]));
  }

  lemma ChangedMap(fs: Fs, fs': Fs, d: nat, u: Table)
    requires OwnInv(fs) && DirChanged(fs, fs', d, u)
    ensures OwnInv(fs') && d in fs'.inodes && DirMap(fs', d) == Listing(u)
  {
  }

  /** Every entry before place n is live. */
  ghost predicate LiveBefore(t: Table, n: nat)
    requires n <= |t|
  {
    forall p :: 0 <= p < n ==> Live(t[p])
  }

  lemma NoneLiveBefore(t: Table)
    ensures LiveBefore(t, 0)
  {
  }

  lemma AllLive(t: Table)
    requires LiveBefore(t, |t|)
    ensures FirstDead(t).None?
  {
  }

  lemma LiveUpTo(fs: Fs, d: nat, b: nat, dead: Option<nat>)
    requires Sizes(fs) && d in fs.inodes && b < BLOCKS && 0 < fs.inodes[d].sectors[b] < |fs.disk|
    requires LiveBefore(Entries(fs, d), PER_BLOCK * b)
    requires FirstDeadIn(fs.disk[fs.inodes[d].sectors[b]], dead)
    ensures dead.Some? ==> dead.value < PER_BLOCK
    ensures dead.Some? ==>
            LiveBefore(Entries(fs, d), PER_BLOCK * b + dead.value) && !Live(Entries(fs, d)[PER_BLOCK * b + dead.value])
    ensures dead.None? ==> LiveBefore(Entries(fs, d), PER_BLOCK * (b + 1))
  {
    hide Live, RecAt, TableOf;
    var n := if dead.Some? then dead.value else PER_BLOCK;
    forall p | PER_BLOCK * b <= p < PER_BLOCK * b + n ensures Live(Entries(fs, d)[p]) {
      EntryInBlock(fs.disk, fs.inodes[d].sectors, b, p - PER_BLOCK * b);
    }
    if dead.Some? {
      EntryInBlock(fs.disk, fs.inodes[d].sectors, b, dead.value);
    }
  }

  // ---------------------------------------------------------------------------------------
  // delete_dir_entry.

  /** A live entry other than "." and "..". */
  predicate Counted(r: Rec) {
    Live(r) && !NameIs(r, DOT) && !NameIs(r, DOTDOT)
  }

  /** What the scan of one sector finds out: the entry with the inode, how many entries count
      besides "." and "..", and whether "." is here. */
  datatype Tally = Tally(found: Option<nat>, cnt: nat, first: bool)

  ghost predicate TallyOf(buf: Sector, ino: Word, y: Tally) {
    && (y.found.Some? ==>
       y.found.value < PER_BLOCK && Counted(RecAt(buf, y.found.value)) && Ino(RecAt(buf, y.found.value)) == ino)
    && (y.found.None? ==> forall k :: 0 <= k < PER_BLOCK && Counted(RecAt(buf, k)) ==> Ino(RecAt(buf, k)) != ino)
    && (y.first <==> exists k :: 0 <= k < PER_BLOCK && Live(RecAt(buf, k)) && NameIs(RecAt(buf, k), DOT))
    && (y.cnt == 0 ==> forall k :: 0 <= k < PER_BLOCK ==> !Counted(RecAt(buf, k)))
    && (y.cnt == 1 ==> forall j, k ::
       0 <= j < PER_BLOCK && 0 <= k < PER_BLOCK && Counted(RecAt(buf, j)) && Counted(RecAt(buf, k)) ==> j == k)
    && (y.cnt >= 2 ==> exists j, k :: 0 <= j < k < PER_BLOCK && Counted(RecAt(buf, j)) && Counted(RecAt(buf, k)))
  }

  predicate With(r: Rec, ino: Word) {
    Counted(r) && Ino(r) == ino
  }

  /** At most one counted entry of the sector has the inode. */
  ghost predicate OneWith(buf: Sector, ino: Word) {
    forall j, k ::
      0 <= j < PER_BLOCK && 0 <= k < PER_BLOCK && With(RecAt(buf, j), ino) && With(RecAt(buf, k), ino) ==> j == k
  }

  /** The scan of one sector in delete_dir_entry; it asserts that the inode occurs once. */
  method TallyBlock(buf: Sector, ino: Word) returns (r: Outcome<Tally>)
    requires OneWith(buf, ino)
    ensures r.Done? && TallyOf(buf, ino, r.value)
  {
    hide Live, NameIs, Ino, RecAt, Counted;
    var y := Tally(None, 0, false);
    ghost var w, v := 0, 0;
    var dirEntryIdx := 0;
    while dirEntryIdx < PER_BLOCK
      invariant 0 <= dirEntryIdx <= PER_BLOCK
      invariant y.found.Some? ==>
                y.found.value < dirEntryIdx && Counted(RecAt(buf, y.found.value))
                  && Ino(RecAt(buf, y.found.value)) == ino
      invariant y.found.None? ==> forall k :: 0 <= k < dirEntryIdx && Counted(RecAt(buf, k)) ==>
                Ino(RecAt(buf, k)) != ino
      invariant y.first <==> exists k :: 0 <= k < dirEntryIdx && Live(RecAt(buf, k)) && NameIs(RecAt(buf, k), DOT)
      invariant y.cnt >= 1 ==> w < dirEntryIdx && Counted(RecAt(buf, w))
      invariant y.cnt >= 2 ==> w < v < dirEntryIdx && Counted(RecAt(buf, v))
      invariant y.cnt == 0 ==> forall k :: 0 <= k < dirEntryIdx ==> !Counted(RecAt(buf, k))
      invariant y.cnt == 1 ==> forall k :: 0 <= k < dirEntryIdx && Counted(RecAt(buf, k)) ==> k == w
    {
      var e := RecAt(buf, dirEntryIdx);
      CountedIs(e);
      if Live(e) {
        if NameIs(e, DOT) {
          y := y.(first := true);
        } else if !NameIs(e, DOTDOT) {
          if y.cnt == 0 { w := dirEntryIdx; } else if y.cnt == 1 { v := dirEntryIdx; }
          y := y.(cnt := y.cnt + 1);
          if Ino(e) == ino {
            if y.found.Some? {
              return AssertFailed;
            }
            y := y.(found := Some(dirEntryIdx));
          }
        }
      }
      dirEntryIdx := dirEntryIdx + 1;
    }
    return Done(y);
  }

  lemma CountedIs(r: Rec)
    ensures Counted(r) <==> Live(r) && !NameIs(r, DOT) && !NameIs(r, DOTDOT)
  {
  }

  /** In a good table the counted entries are the live ones from place 2 on. */
  lemma CountedFrom2(t: Table, d: Word, p: nat)
    requires TableOk(t, d) && p < PLACES
    ensures Counted(t[p]) <==> p >= 2 && Live(t[p])
    ensures Live(t[p]) && NameIs(t[p], DOT) <==> p == 0
  {
    NameIsNameOf(t[0], DOT);
    NameIsNameOf(t[1], DOTDOT);
    NameIsNameOf(t[p], DOT);
    NameIsNameOf(t[p], DOTDOT);
  }

  /** Clearing the live entry p: what the directory becomes. */
  ghost predicate Deleted(fs: Fs, fs': Fs, d: nat, p: nat)
    requires OwnInv(fs) && DirOk(fs, d) && p < PLACES
  {
    && DirChanged(fs, fs', d, Entries(fs, d)[p := ZeroRec()])
    && DirMap(fs', d) == DirMap(fs, d) - {NameOf(Entries(fs, d)[p])}
  }

  /** Place p, not a dot, holds the entry of the inode. */
  ghost predicate EntryOf(fs: Fs, d: nat, ino: Word, p: nat)
    requires Sizes(fs) && d in fs.inodes
  {
    2 <= p < PLACES && Live(Entries(fs, d)[p]) && Ino(Entries(fs, d)[p]) == ino
  }

  /** fs with entry k of block b cleared in its sector. */
  ghost function PutZero(fs: Fs, d: nat, b: nat, k: nat): Fs
    requires Sizes(fs) && d in fs.inodes && b < BLOCKS && k < PER_BLOCK
    requires fs.inodes[d].sectors[b] < |fs.disk| && fs.inodes[d].size >= REC
  {
    var lba := fs.inodes[d].sectors[b];
    fs.(disk := fs.disk[lba := PutRec(fs.disk[lba], k, ZeroRec())],
        inodes := fs.inodes[d := fs.inodes[d].(size := fs.inodes[d].size - REC)])
  }

  /** fs with block b of the directory given back. */
  ghost function DropBlock(fs: Fs, d: nat, b: nat): Fs
    requires Sizes(fs) && d in fs.inodes && b < BLOCKS && fs.inodes[d].size >= REC
    requires fs.start <= fs.inodes[d].sectors[b] < fs.start + |fs.bits|
  {
    var ino := fs.inodes[d];
    fs.(bits := fs.bits[ino.sectors[b] - fs.start := false],
        inodes := fs.inodes[d := Inode(ino.size - REC, ino.sectors[b := 0])])
  }

  /** Only place p of its block is live. */
  ghost predicate Alone(t: Table, b: nat, p: nat)
    requires |t| == PLACES
  {
    forall q :: 0 <= q < PLACES && InBlock(q, b) && q != p ==> t[q] == ZeroRec()
  }

  ghost predicate HasOther(t: Table, b: nat, p: nat)
    requires |t| == PLACES
  {
    exists q :: 0 <= q < PLACES && InBlock(q, b) && q != p && Live(t[q])
  }

  /** One live entry less; other blocks keep theirs, and b too unless it is gone. */
  lemma ShapeDelete(ino: Inode, t: Table, d: nat, p: nat, sectors: seq<Word>)
    requires DirShape(ino, t, d) && 2 <= p < PLACES && Live(t[p]) && TableOk(t[p := ZeroRec()], d)
    requires |sectors| == 13 && sectors[0] == ino.sectors[0] && sectors[12] == ino.sectors[12]
    requires forall b :: 0 <= b < BLOCKS && !InBlock(p, b) ==> sectors[b] == ino.sectors[b]
    requires forall b :: 1 <= b < BLOCKS && InBlock(p, b) && sectors[b] != 0 ==> HasOther(t, b, p)
    ensures ino.size >= REC && DirShape(Inode(ino.size - REC, sectors), t[p := ZeroRec()], d)
  {
    hide TableOk, Live, ZeroRec;
    var u := t[p := ZeroRec()];
    ZeroIsDead();
    CountAfter(t, p, ZeroRec());
    forall b | 1 <= b < BLOCKS && sectors[b] != 0 ensures BlockLive(u, b) {
      if InBlock(p, b) {
        var q :| 0 <= q < PLACES && InBlock(q, b) && q != p && Live(t[q]);
        assert Live(u[q]);
      } else {
        assert BlockLive(t, b);
        var q :| 0 <= q < PLACES && InBlock(q, b) && Live(t[q]);
        assert Live(u[q]);
      }
    }
  }

  lemma SizeSet(fs: Fs, d: nat, size: nat)
    requires OwnInv(fs) && d in fs.inodes && fs.inodes[d].sectors[0] != 0
    ensures var fs' := fs.(inodes := fs.inodes[d := fs.inodes[d].(size := size)]);
            OwnInv(fs') && Own(fs') == Own(fs) && OthersSame(fs, fs', d)
  {
    hide OwnInv, OthersSame;
    OwnSizes(fs);
    SectorOnDisk(fs, d, 0);
    var lba := fs.inodes[d].sectors[0];
    SectorWritten(fs, d, 0, fs.disk[lba], size);
    assert fs.disk[lba := fs.disk[lba]] == fs.disk;
  }

  /** Without block b, in which only place p is live, the table is the one without p. */
  lemma TableDrop(disk: seq<Sector>, sectors: seq<Word>, b: nat, p: nat, t: Table)
    requires |sectors| == 13 && b < BLOCKS && t == TableOf(disk, sectors) && p < PLACES && InBlock(p, b)
    requires forall q :: 0 <= q < PLACES && InBlock(q, b) && q != p ==> t[q] == ZeroRec()
    ensures TableOf(disk, sectors[b := 0]) == t[p := ZeroRec()]
  {
    hide ZeroRec;
    var u, v := TableOf(disk, sectors[b := 0]), t[p := ZeroRec()];
    forall q | 0 <= q < PLACES ensures u[q] == v[q] {
      assert q / PER_BLOCK == b <==> InBlock(q, b);
    }
  }

  lemma DropKeeps(fs: Fs, d: nat, b: nat, p: nat)
    requires OwnInv(fs) && DirOk(fs, d) && 1 <= b < BLOCKS && fs.inodes[d].sectors[b] != 0
    requires 2 <= p < PLACES && InBlock(p, b) && Live(Entries(fs, d)[p]) && TableOk(Entries(fs, d)[p := ZeroRec()], d)
    requires Alone(Entries(fs, d), b, p)
    ensures fs.inodes[d].size >= REC && fs.start <= fs.inodes[d].sectors[b] < fs.start + |fs.bits|
    ensures DirChanged(fs, DropBlock(fs, d, b), d, Entries(fs, d)[p := ZeroRec()])
  {
    hide Exclusive, BitsMatch, OthersSame, TableOk, Slots, TableOf, Live, ZeroRec, DirShape;
    var ino, lba := fs.inodes[d], fs.inodes[d].sectors[b];
    DirFacts(fs, d);
    ShapeDelete(ino, Entries(fs, d), d, p, ino.sectors[b := 0]);
    OneLessBlock(fs, d, b, lba);
    var fs1 := fs.(bits := fs.bits[lba - fs.start := false],
        inodes := fs.inodes[d := ino.(sectors := ino.sectors[b := 0])]);
    SizeSet(fs1, d, ino.size - REC);
    var fs2 := fs1.(inodes := fs1.inodes[d := fs1.inodes[d].(size := ino.size - REC)]);
    assert fs2.inodes == fs.inodes[d := Inode(ino.size - REC, ino.sectors[b := 0])];
    OthersThen(fs, fs1, fs2, d);
    TableDrop(fs.disk, ino.sectors, b, p, Entries(fs, d));
  }

  lemma ClearKeeps(fs: Fs, d: nat, b: nat, k: nat)
    requires OwnInv(fs) && DirOk(fs, d) && b < BLOCKS && k < PER_BLOCK && fs.inodes[d].sectors[b] != 0
    requires var p := PER_BLOCK * b + k;
             && 2 <= p && Live(Entries(fs, d)[p]) && TableOk(Entries(fs, d)[p := ZeroRec()], d)
             && (b >= 1 ==> HasOther(Entries(fs, d), b, p))
    ensures fs.inodes[d].size >= REC && fs.inodes[d].sectors[b] < |fs.disk|
    ensures DirChanged(fs, PutZero(fs, d, b, k), d, Entries(fs, d)[PER_BLOCK * b + k := ZeroRec()])
  {
    hide Exclusive, BitsMatch, OthersSame, TableOk, Slots, TableOf, Live, ZeroRec, DirShape, PutRec, HasOther;
    var ino, lba := fs.inodes[d], fs.inodes[d].sectors[b];
    DirFacts(fs, d);
    ShapeDelete(ino, Entries(fs, d), d, PER_BLOCK * b + k, ino.sectors);
    SectorOnDisk(fs, d, b);
    SectorsDiffer(fs, d, b);
    SectorWritten(fs, d, b, PutRec(fs.disk[lba], k, ZeroRec()), ino.size - REC);
    TablePut(fs.disk, ino.sectors, b, k, ZeroRec());
  }

  /** The entries of block b, seen in the table. */
  lemma BlockEntries(fs: Fs, d: nat, b: nat, k: nat)
    requires Sizes(fs) && DirOk(fs, d) && b < BLOCKS && 0 < fs.inodes[d].sectors[b] < |fs.disk| && k < PER_BLOCK
    ensures var r := RecAt(fs.disk[fs.inodes[d].sectors[b]], k);
            && r == Entries(fs, d)[PER_BLOCK * b + k]
            && (Counted(r) <==> PER_BLOCK * b + k >= 2 && Live(r))
            && (Live(r) && NameIs(r, DOT) <==> b == 0 && k == 0)
  {
    hide TableOk, RecAt, TableOf, Counted, Live, NameIs;
    EntryInBlock(fs.disk, fs.inodes[d].sectors, b, k);
    CountedFrom2(Entries(fs, d), d, PER_BLOCK * b + k);
  }

  lemma OneWithHere(fs: Fs, d: nat, b: nat, ino: Word)
    requires Sizes(fs) && DirOk(fs, d) && b < BLOCKS && 0 < fs.inodes[d].sectors[b] < |fs.disk|
    ensures OneWith(fs.disk[fs.inodes[d].sectors[b]], ino)
  {
    hide RecAt, TableOf, Counted, Live, NameIs, GoodName, NameOf, Ino, BlockLive;
    var buf := fs.disk[fs.inodes[d].sectors[b]];
    forall j, k | 0 <= j < PER_BLOCK && 0 <= k < PER_BLOCK && With(RecAt(buf, j), ino) && With(RecAt(buf, k), ino)
      ensures j == k
    {
      BlockEntries(fs, d, b, j);
      BlockEntries(fs, d, b, k);
    }
  }

  lemma TallyFound(fs: Fs, d: nat, b: nat, ino: Word, y: Tally)
    requires Sizes(fs) && DirOk(fs, d) && b < BLOCKS && 0 < fs.inodes[d].sectors[b] < |fs.disk|
    requires TallyOf(fs.disk[fs.inodes[d].sectors[b]], ino, y) && y.found.Some?
    ensures y.found.value < PER_BLOCK && EntryOf(fs, d, ino, PER_BLOCK * b + y.found.value) && y.cnt >= 1
    ensures y.first <==> b == 0
  {
    hide RecAt, DirOk, Entries, Counted, Live, NameIs, Ino;
    DirFacts(fs, d);
    var buf, k := fs.disk[fs.inodes[d].sectors[b]], y.found.value;
    BlockEntries(fs, d, b, k);
    assert Counted(RecAt(buf, k));
    if y.first {
      var j :| 0 <= j < PER_BLOCK && Live(RecAt(buf, j)) && NameIs(RecAt(buf, j), DOT);
      BlockEntries(fs, d, b, j);
    }
    if b == 0 {
      BlockEntries(fs, d, b, 0);
    }
  }

  lemma TallyOne(fs: Fs, d: nat, b: nat, ino: Word, y: Tally)
    requires Sizes(fs) && DirOk(fs, d) && 1 <= b < BLOCKS && 0 < fs.inodes[d].sectors[b] < |fs.disk|
    requires TallyOf(fs.disk[fs.inodes[d].sectors[b]], ino, y) && y.found.Some? && y.found.value < PER_BLOCK
             && y.cnt == 1
    ensures Alone(Entries(fs, d), b, PER_BLOCK * b + y.found.value)
  {
    hide Sizes, RecAt, DirOk, Entries, Counted, Live, NameIs, Ino, ZeroRec, TableOk;
    DirFacts(fs, d);
    DeadAreZero(fs, d);
    var t, k := Entries(fs, d), y.found.value;
    BlockEntries(fs, d, b, k);
    forall q | 0 <= q < PLACES && InBlock(q, b) && q != PER_BLOCK * b + k ensures t[q] == ZeroRec() {
      BlockEntries(fs, d, b, q - PER_BLOCK * b);
    }
  }

  lemma TallyMore(fs: Fs, d: nat, b: nat, ino: Word, y: Tally)
    requires Sizes(fs) && DirOk(fs, d) && 1 <= b < BLOCKS && 0 < fs.inodes[d].sectors[b] < |fs.disk|
    requires TallyOf(fs.disk[fs.inodes[d].sectors[b]], ino, y) && y.found.Some? && y.found.value < PER_BLOCK
             && y.cnt > 1
    ensures HasOther(Entries(fs, d), b, PER_BLOCK * b + y.found.value)
  {
    hide Sizes, RecAt, DirOk, Entries, Counted, Live, NameIs, Ino, ZeroRec, TableOk;
    DirFacts(fs, d);
    var buf, t, k := fs.disk[fs.inodes[d].sectors[b]], Entries(fs, d), y.found.value;
    var i, j :| 0 <= i < j < PER_BLOCK && Counted(RecAt(buf, i)) && Counted(RecAt(buf, j));
    BlockEntries(fs, d, b, i);
    BlockEntries(fs, d, b, j);
    var o := if i == k then j else i;
    assert InBlock(PER_BLOCK * b + o, b) && Live(t[PER_BLOCK * b + o]);
  }

  lemma DeadAreZero(fs: Fs, d: nat)
    requires Sizes(fs) && DirOk(fs, d)
    ensures forall p :: 0 <= p < PLACES && !Live(Entries(fs, d)[p]) ==> Entries(fs, d)[p] == ZeroRec()
  {
  }

  /** No entry before place n has the inode. */
  ghost predicate NoEntryBefore(fs: Fs, d: nat, ino: Word, n: nat)
    requires Sizes(fs) && d in fs.inodes
  {
    forall p :: 0 <= p < n ==> !EntryOf(fs, d, ino, p)
  }

  lemma TallyMissed(fs: Fs, d: nat, b: nat, ino: Word, y: Tally)
    requires Sizes(fs) && DirOk(fs, d) && b < BLOCKS && 0 < fs.inodes[d].sectors[b] < |fs.disk|
    requires TallyOf(fs.disk[fs.inodes[d].sectors[b]], ino, y) && y.found.None?
    requires NoEntryBefore(fs, d, ino, PER_BLOCK * b)
    ensures NoEntryBefore(fs, d, ino, PER_BLOCK * (b + 1))
  {
    hide Sizes, RecAt, DirOk, Entries, Counted, Live, NameIs, Ino;
    DirFacts(fs, d);
    forall p | 0 <= p < PER_BLOCK * (b + 1) ensures !EntryOf(fs, d, ino, p) {
      if p >= PER_BLOCK * b {
        BlockEntries(fs, d, b, p - PER_BLOCK * b);
      }
    }
  }

  lemma EmptyMissed(fs: Fs, d: nat, b: nat, ino: Word)
    requires Sizes(fs) && DirOk(fs, d) && b < BLOCKS && fs.inodes[d].sectors[b] == 0
    requires NoEntryBefore(fs, d, ino, PER_BLOCK * b)
    ensures NoEntryBefore(fs, d, ino, PER_BLOCK * (b + 1))
  {
    hide DirOk, Entries, Live, Ino;
    DirFacts(fs, d);
    forall p | 0 <= p < PER_BLOCK * (b + 1) ensures !EntryOf(fs, d, ino, p) {
      if p >= PER_BLOCK * b {
        DeadBlock(fs, d, b, p);
      }
    }
  }

  lemma DeletedFrom(fs: Fs, fs': Fs, d: nat, p: nat)
    requires OwnInv(fs) && DirOk(fs, d) && 2 <= p < PLACES && Live(Entries(fs, d)[p])
    requires DirChanged(fs, fs', d, Entries(fs, d)[p := ZeroRec()])
    ensures Deleted(fs, fs', d, p)
  {
    hide OwnInv, Listing, Live, NameOf, ZeroRec, TableOf, TableOk, LiveCount, DirChanged;
    OwnSizes(fs);
    DirFacts(fs, d);
    DeleteMaps(Entries(fs, d), d, p);
    ChangedMap(fs, fs', d, Entries(fs, d)[p := ZeroRec()]);
  }

  lemma DeletedDrop(fs: Fs, d: nat, b: nat, p: nat)
    requires OwnInv(fs) && DirOk(fs, d) && 1 <= b < BLOCKS && fs.inodes[d].sectors[b] != 0
    requires 2 <= p < PLACES && InBlock(p, b) && Live(Entries(fs, d)[p]) && Alone(Entries(fs, d), b, p)
    ensures fs.inodes[d].size >= REC && fs.start <= fs.inodes[d].sectors[b] < fs.start + |fs.bits|
    ensures Deleted(fs, DropBlock(fs, d, b), d, p)
  {
    hide OwnInv, DirOk, Listing, Live, NameOf, ZeroRec, Entries, TableOk, LiveCount, DirChanged, Deleted, DropBlock,
         Alone;
    OwnSizes(fs);
    DirFacts(fs, d);
    DeleteMaps(Entries(fs, d), d, p);
    DropKeeps(fs, d, b, p);
    DeletedFrom(fs, DropBlock(fs, d, b), d, p);
  }

  lemma DeletedClear(fs: Fs, d: nat, b: nat, k: nat)
    requires OwnInv(fs) && DirOk(fs, d) && b < BLOCKS && k < PER_BLOCK && fs.inodes[d].sectors[b] != 0
    requires 2 <= PER_BLOCK * b + k && Live(Entries(fs, d)[PER_BLOCK * b + k])
    requires b >= 1 ==> HasOther(Entries(fs, d), b, PER_BLOCK * b + k)
    ensures fs.inodes[d].size >= REC && fs.inodes[d].sectors[b] < |fs.disk|
    ensures Deleted(fs, PutZero(fs, d, b, k), d, PER_BLOCK * b + k)
  {
    hide Sizes, OwnInv, DirOk, Listing, Live, NameOf, ZeroRec, Entries, TableOk, LiveCount, DirChanged, Deleted,
         PutZero, HasOther;
    OwnSizes(fs);
    DirFacts(fs, d);
    DeleteMaps(Entries(fs, d), d, PER_BLOCK * b + k);
    ClearKeeps(fs, d, b, k);
    DeletedFrom(fs, PutZero(fs, d, b, k), d, PER_BLOCK * b + k);
  }

  /** Block b held only the entry in place p: the block goes back to the bitmap. */
  method GiveBlockBack(part: Partition, d: nat, b: nat, ghost p: nat)
    requires part.Valid() && OwnInv(part.Model()) && DirOk(part.Model(), d)
    requires 1 <= b < BLOCKS && part.inodes[d].sectors[b] != 0
    requires 2 <= p < PLACES && InBlock(p, b) && Live(Entries(part.Model(), d)[p])
             && Alone(Entries(part.Model(), d), b, p)
    modifies part`inodes, part.blockBitmap.bits
    ensures part.Valid() && Deleted(old(part.Model()), part.Model(), d, p)
  {
    hide OwnInv, DirOk, Entries, Live, Alone, Deleted, Bitmap.Contents, Bitmap.Valid;
    ghost var fs := part.Model();
    DirFacts(fs, d);
    DeletedDrop(fs, d, b, p);
    var ino := part.inodes[d];
    part.FreeBlock(ino.sectors[b]);
    part.SetInode(d, Inode(ino.size - REC, ino.sectors[b := 0]));
    assert part.Model() == DropBlock(fs, d, b);
  }

  /** The entry in place k of block b is wiped in its sector. */
  method WipeEntry(part: Partition, d: nat, b: nat, k: nat, buf: Sector)
    requires part.Valid() && OwnInv(part.Model()) && DirOk(part.Model(), d)
    requires b < BLOCKS && k < PER_BLOCK && 0 < part.inodes[d].sectors[b] < part.disk.Length
    requires buf == part.disk[part.inodes[d].sectors[b]]
    requires 2 <= PER_BLOCK * b + k && Live(Entries(part.Model(), d)[PER_BLOCK * b + k])
    requires b >= 1 ==> HasOther(Entries(part.Model(), d), b, PER_BLOCK * b + k)
    modifies part`inodes, part.disk
    ensures part.Valid() && Deleted(old(part.Model()), part.Model(), d, PER_BLOCK * b + k)
  {
    hide OwnInv, DirOk, Entries, Live, HasOther, Deleted, PutRec, ZeroRec, Bitmap.Contents, Bitmap.Valid;
    ghost var fs := part.Model();
    DirFacts(fs, d);
    DeletedClear(fs, d, b, k);
    var ino := part.inodes[d];
    part.IdeWrite(ino.sectors[b], PutRec(buf, k, ZeroRec()));
    part.SetInode(d, ino.(size := ino.size - REC));
    assert part.Model() == PutZero(fs, d, b, k);
  }

  /** The entry found in block b is deleted; both assertions of delete_dir_entry hold. */
  method DeleteHere(part: Partition, d: nat, b: nat, buf: Sector, y: Tally, ino: Word) returns (r: Outcome<bool>)
    requires part.Valid() && OwnInv(part.Model()) && DirOk(part.Model(), d)
    requires b < BLOCKS && 0 < part.inodes[d].sectors[b] < part.disk.Length
    requires buf == part.disk[part.inodes[d].sectors[b]] && TallyOf(buf, ino, y) && y.found.Some?
    modifies part`inodes, part.disk, part.blockBitmap.bits
    ensures part.Valid() && r == Done(true)
    ensures y.found.value < PER_BLOCK && EntryOf(old(part.Model()), d, ino, PER_BLOCK * b + y.found.value)
    ensures Deleted(old(part.Model()), part.Model(), d, PER_BLOCK * b + y.found.value)
  {
    hide OwnInv, DirOk, Sizes, TallyOf, Alone, HasOther, Entries, Live, Ino, Deleted, Bitmap.Contents, Bitmap.Valid;
    ghost var fs := part.Model();
    DirIsThere(fs, d);
    assert buf == fs.disk[fs.inodes[d].sectors[b]];
    TallyFound(fs, d, b, ino, y);
    var k := y.found.value;
    if y.cnt < 1 {
      return AssertFailed;
    }
    if y.cnt == 1 && !y.first {
      TallyOne(fs, d, b, ino, y);
      GiveBlockBack(part, d, b, PER_BLOCK * b + k);
    } else {
      if b >= 1 {
        TallyMore(fs, d, b, ino, y);
      }
      WipeEntry(part, d, b, k, buf);
    }
    return Done(true);
  }

  /** delete_dir_entry: true iff some entry but the dots has the inode number; then that entry is
      gone, from the map and from the disk, and a block that only held it is free again. */
  method DeleteDirEntry(part: Partition, d: nat, ino: Word) returns (r: Outcome<bool>)
    requires part.Valid() && OwnInv(part.Model()) && DirOk(part.Model(), d)
    modifies part`inodes, part.disk, part.blockBitmap.bits
    ensures part.Valid() && r.Done?
    ensures r == Done(false) ==> part.Model() == old(part.Model()) && NoEntryBefore(part.Model(), d, ino, PLACES)
    ensures r == Done(true) ==> exists p ::
            EntryOf(old(part.Model()), d, ino, p) && Deleted(old(part.Model()), part.Model(), d, p)
  {
    hide OwnInv, DirOk, Sizes, TallyOf, OneWith, NoEntryBefore, EntryOf, Deleted, Bitmap.Contents, Bitmap.Valid;
    ghost var fs := part.Model();
    DirFacts(fs, d);
    NoneBefore(fs, d, ino);
    var blockIdx := 0;
    while blockIdx < BLOCKS
      invariant 0 <= blockIdx <= BLOCKS && part.Valid() && part.Model() == fs
      invariant NoEntryBefore(fs, d, ino, PER_BLOCK * blockIdx)
    {
      if part.inodes[d].sectors[blockIdx] == 0 {
        EmptyMissed(fs, d, blockIdx, ino);
      } else {
        SectorOnDisk(fs, d, blockIdx);
        OneWithHere(fs, d, blockIdx, ino);
        var buf := part.IdeRead(part.inodes[d].sectors[blockIdx]);
        assert buf == fs.disk[fs.inodes[d].sectors[blockIdx]];
        var tally := TallyBlock(buf, ino);
        if tally.AssertFailed? {
          return AssertFailed;
        }
        var y := tally.value;
        if y.found.Some? {
          r := DeleteHere(part, d, blockIdx, buf, y, ino);
          return r;
        }
        TallyMissed(fs, d, blockIdx, ino, y);
      }
      blockIdx := blockIdx + 1;
    }
    return Done(false);
  }

  lemma NoneBefore(fs: Fs, d: nat, ino: Word)
    requires Sizes(fs) && d in fs.inodes
    ensures NoEntryBefore(fs, d, ino, 0)
  {
  }
}
