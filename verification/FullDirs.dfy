/** A full directory within the other limits: the root with 250 files, one call after another (src/fs/fs.c,
    src/fs/file.c), and what the next call does to it (src/fs/dir.c). */
module FullDirs {
  import opened Results
  import opened Bytes
  import opened Bitmaps
  import opened Blocks
  import opened Files
  import opened DirTables
  import opened Directories
  import opened DirSpills
  import opened Paths
  import opened Trees
  import opened Volumes
  import opened FileSystem
  import opened Formatting
  import opened Sets

  const FILES: nat := 250

  /** The names "aa", "ba", ... */
  function FileName(k: nat): Name
    requires k < 256
  {
    [97 + k % 16, 97 + k / 16]
  }

  lemma NameFacts(j: nat, k: nat)
    requires j < 256 && k < 256
    ensures GoodName(FileName(k)) && Plain(FileName(k))
    ensures FileName(j) == FileName(k) ==> j == k
  {
    assert FileName(k)[0] != 46;
    assert FileName(j) == FileName(k) ==> FileName(j)[0] == FileName(k)[0] && FileName(j)[1] == FileName(k)[1];
  }

  ghost function NamesBelow(k: nat): (s: set<Name>)
    requires k <= 256
  {
    if k == 0 then {} else NamesBelow(k - 1) + {FileName(k - 1)}
  }

  lemma {:induction false} NotYetNamed(j: nat, k: nat)
    requires j <= k < 256
    ensures FileName(k) !in NamesBelow(j) && |NamesBelow(j)| == j
    ensures DOT !in NamesBelow(j) && DOTDOT !in NamesBelow(j)
  {
    if j > 0 {
      NotYetNamed(j - 1, k);
      NotYetNamed(j - 1, j - 1);
      NameFacts(j - 1, k);
      NameFacts(j - 1, j - 1);
    }
  }

  // ---------------------------------------------------------------------------------------
  // A directory lists as many names as it has live entries.

  ghost function LiveNames(t: Table, p: nat): set<Name>
    requires p <= |t|
  {
    if p == 0 then {} else LiveNames(t, p - 1) + if Live(t[p - 1]) then {NameOf(t[p - 1])} else {}
  }

  lemma {:induction false} LiveNamesAre(t: Table, p: nat, n: Name)
    requires p <= |t|
    ensures n in LiveNames(t, p) <==> exists q :: 0 <= q < p && Live(t[q]) && NameOf(t[q]) == n
  {
    hide Live, NameOf;
    if p > 0 {
      LiveNamesAre(t, p - 1, n);
    }
  }

  lemma {:induction false} LiveNamesCount(t: Table, self: Word, p: nat)
    requires TableOk(t, self) && p <= PLACES
    ensures |LiveNames(t, p)| == LiveCount(t[..p])
  {
    hide Live, NameOf, NameIs, GoodName;
    if p > 0 {
      LiveNamesCount(t, self, p - 1);
      CountPrefix(t, p - 1);
      LiveNamesAre(t, p - 1, NameOf(t[p - 1]));
    }
  }

  lemma ListingCount(t: Table, self: Word)
    requires TableOk(t, self)
    ensures |Listing(t).Keys| == LiveCount(t)
  {
    hide Live, NameOf, NameIs, GoodName, Listing;
    LiveNamesCount(t, self, PLACES);
    assert t[..PLACES] == t;
    forall n ensures n in Listing(t) <==> n in LiveNames(t, PLACES) {
      ListedIff(t, n);
      LiveNamesAre(t, PLACES, n);
    }
    assert Listing(t).Keys == LiveNames(t, PLACES);
  }

  /** A directory is full iff it lists 252 names. */
  lemma FullIff(fs: Fs, d: nat)
    requires Sizes(fs) && DirOk(fs, d)
    ensures FirstDead(Entries(fs, d)).None? <==> |DirMap(fs, d).Keys| == PLACES
  {
    hide TableOk, Live, NameOf, Listing, LiveCount, FirstDead, BlockLive;
    var t := Entries(fs, d);
    DirFacts(fs, d);
    ListingCount(t, d);
    if FirstDead(t).None? {
      NoDead(t);
      FullCount(t);
    } else {
      OneDead(t);
    }
  }

  lemma OneDead(t: Table)
    requires FirstDead(t).Some?
    ensures LiveCount(t) < |t|
  {
    hide Live, LiveCount;
    var p := FirstDead(t).value;
    CountPrefix(t, p);
    LiveAtMost(t[..p]);
    PrefixRest(t, p + 1);
  }

  lemma {:induction false} PrefixRest(t: Table, p: nat)
    requires p <= |t|
    ensures LiveCount(t) <= LiveCount(t[..p]) + |t| - p
    decreases |t| - p
  {
    hide Live, LiveCount;
    if p < |t| {
      CountPrefix(t, p);
      PrefixRest(t, p + 1);
    } else {
      assert t[..p] == t;
    }
  }

  // ---------------------------------------------------------------------------------------
  // Blocks enough.

  /** Only the root has blocks. */
  ghost predicate BareFiles(inodes: map<nat, Inode>) {
    && 0 in inodes && forall i :: i in inodes && i != 0 ==> inodes[i] == Inode(0, NoSectors())
  }

  lemma RootReaches(fs: Fs, a: nat)
    requires Sizes(fs) && BareFiles(fs.inodes) && fs.inodes[0].sectors[12] == 0 && Reaches(Own(fs), a)
    ensures a in fs.inodes[0].sectors[..12]
  {
    var i :| i in Own(fs) && a in Own(fs)[i];
    if i != 0 {
      EmptySlots(fs.disk, 0);
    } else {
      var s := fs.inodes[0].sectors;
      assert Own(fs)[0] == s + TableWords(fs.disk, 0);
      var k :| 0 <= k < SLOTS && Own(fs)[0][k] == a;
      assert k < 12;
      assert s[..12][k] == a;
    }
  }

  /** Of p blocks all are free but those that the root holds. */
  lemma {:induction false} FreeAtLeast(fs: Fs, held: set<int>, p: nat)
    requires OwnInv(fs) && p <= fs.usable
    requires forall a :: fs.start <= a < fs.start + p && Reaches(Own(fs), a) ==> a in held
    requires forall a :: a in held ==> a < fs.start + p
    ensures p <= |fs.bits| && ClearBits(fs.bits[..p]) + |held| >= p
  {
    hide Exclusive, Reaches, Own;
    if p > 0 {
      var last := fs.start + p - 1;
      FreeAtLeast(fs, held - {last}, p - 1);
      assert fs.bits[..p][..p - 1] == fs.bits[..p - 1];
      assert fs.bits[p - 1] <==> Reaches(Own(fs), last);
    }
  }

  lemma {:induction false} FreePrefix(bits: seq<bool>, p: nat)
    requires p <= |bits|
    ensures ClearBits(bits[..p]) <= ClearBits(bits)
  {
    if p < |bits| {
      FreePrefix(bits[..|bits| - 1], p);
      assert bits[..|bits| - 1][..p] == bits[..p];
    } else {
      assert bits[..p] == bits;
    }
  }

  /** The root's blocks are twelve at most. */
  lemma BlocksFree(fs: Fs)
    requires OwnInv(fs) && BareFiles(fs.inodes) && fs.inodes[0].sectors[12] == 0
    ensures ClearBits(fs.bits) + 12 >= fs.usable
  {
    hide Exclusive, Reaches, Own, ClearBits;
    var direct: seq<int> := fs.inodes[0].sectors[..12];
    var held := set a | a in direct && a < fs.start + fs.usable;
    ElementsCount(direct);
    SubsetCount(held, Elements(direct));
    forall a | fs.start <= a < fs.start + fs.usable && Reaches(Own(fs), a) ensures a in held {
      RootReaches(fs, a);
    }
    FreeAtLeast(fs, held, fs.usable);
    FreePrefix(fs.bits, fs.usable);
  }

  // ---------------------------------------------------------------------------------------
  // The run.

  /** The root and k files. */
  ghost predicate HasFiles(v: Vol, k: nat) {
    && k <= FILES && Sizes(v.fs) && v.dirs == {0} && |v.fs.inodes| == k + 1 && BareFiles(v.fs.inodes)
    && 0 in Shape(v).dirs && Shape(v).dirs[0].Keys == {DOT, DOTDOT} + NamesBelow(k)
    && v.fs.usable >= 14
  }

  lemma RootCount(v: Vol, k: nat)
    requires Good(v) && HasFiles(v, k)
    ensures 0 in v.fs.inodes && FileName(k) !in Shape(v).dirs[0]
    ensures FirstDead(Entries(v.fs, 0)).None? <==> k == FILES
    ensures ClearBits(v.fs.bits) >= 2
  {
    hide VolInv, OwnInv, DirOk, DirMap, FirstDead, Entries, ClearBits, TreeInv, TreeOf, BareFiles, NamesBelow, FileName;
    DirOfVol(v, 0);
    FullIff(v.fs, 0);
    NotYetNamed(k, k);
    DotsApart(Shape(v).dirs[0].Keys, k);
    DirIsThere(v.fs, 0);
    RootRecord(v.fs);
    BlocksFree(v.fs);
  }

  lemma DotsApart(keys: set<Name>, k: nat)
    requires k < 256 && keys == {DOT, DOTDOT} + NamesBelow(k)
    ensures |keys| == k + 2 && FileName(k) !in keys
  {
    hide NamesBelow;
    NotYetNamed(k, k);
    NameFacts(k, k);
    assert |{DOT, DOTDOT}| == 2;
  }

  lemma RootRecord(fs: Fs)
    requires Sizes(fs) && DirOk(fs, 0)
    ensures fs.inodes[0].sectors[12] == 0
  {
  }

  lemma OneMoreFile(v: Vol, w: Vol, k: nat, c: Word)
    requires Good(v) && HasFiles(v, k) && k < FILES && Created(v, w, 0, FileName(k), c) && c !in v.fs.inodes
    requires w.dirs == v.dirs && w.fs.usable == v.fs.usable && 0 in w.fs.inodes
    requires w.fs.inodes == v.fs.inodes[0 := w.fs.inodes[0]][c := Inode(0, NoSectors())]
    ensures HasFiles(w, k + 1)
  {
    hide OwnInv, RootDir, ShapesOk, DirMap, NoSectors, TreeInv, FilesKept, Contents, TreeOf, Sizes, BareFiles;
    VolFacts(w.fs, w.dirs, w.depth);
    BareStays(v.fs.inodes, w.fs.inodes, c);
    OneNameMore(Shape(v), Shape(w), k, c);
  }

  lemma BareStays(a: map<nat, Inode>, b: map<nat, Inode>, c: nat)
    requires BareFiles(a) && c !in a && 0 in b && b == a[0 := b[0]][c := Inode(0, NoSectors())]
    ensures BareFiles(b) && |b| == |a| + 1
  {
    hide NoSectors;
    assert b.Keys == a.Keys + {c};
    KeysSize(a, b, c);
  }

  lemma OneNameMore(t: Tree, u: Tree, k: nat, c: Word)
    requires k < FILES && 0 in t.dirs && t.dirs[0].Keys == {DOT, DOTDOT} + NamesBelow(k)
    requires MayAdd(t, 0, FileName(k), c) && u == AddFile(t, 0, FileName(k), c)
    ensures 0 in u.dirs && u.dirs[0].Keys == {DOT, DOTDOT} + NamesBelow(k + 1)
  {
    hide TreeInv;
    assert u.dirs[0].Keys == t.dirs[0].Keys + {FileName(k)};
  }

  lemma KeysSize(a: map<nat, Inode>, b: map<nat, Inode>, c: nat)
    requires b.Keys == a.Keys + {c} && c !in a
    ensures |b| == |a| + 1
  {
    assert |b.Keys| == |b| && |a.Keys| == |a|;
  }

  /** 250 files in the root of a formatted partition: the root is full, with 251 inodes in use. */
  method FillRoot(disk: array<Sector>, start: nat, bitLen: nat, blockBitmap: Bitmap, inodeBitmap: Bitmap)
    returns (vol: Volume)
    requires blockBitmap.Valid() && inodeBitmap.Valid() && inodeBitmap.bits != blockBitmap.bits
    requires disk as object != blockBitmap.bits && disk as object != inodeBitmap.bits
    requires 13 <= bitLen && blockBitmap.len == SECTOR * BitmapSectors(bitLen) && 8 * inodeBitmap.len == INODES
    requires 0 < start && start + CountedBlocks(bitLen) <= disk.Length && start + 8 * blockBitmap.len < 0x1_0000_0000
    modifies disk, blockBitmap.bits, inodeBitmap.bits
    ensures fresh(vol) && fresh(vol.part) && vol.Valid() && HasFiles(vol.Now(), FILES)
    ensures vol.part.disk == disk && vol.part.blockBitmap == blockBitmap && vol.inodeBitmap == inodeBitmap
    ensures disk[0] == old(disk[0])
  {
    hide VolInv, Shape, HasFiles, InodeBits, NewListing, NoSectors, BitmapSectors, CountedBlocks, Bitmap.Contents,
         Bitmap.Valid;
    vol := Format(disk, start, bitLen, blockBitmap, inodeBitmap);
    EmptyRoot(vol.Now(), start, bitLen);
    AddFiles(vol);
  }

  lemma EmptyRoot(v: Vol, start: nat, bitLen: nat)
    requires Sizes(v.fs) && v.dirs == {0} && v.fs.usable == CountedBlocks(bitLen) && bitLen >= 13
             && start < 0x1_0000_0000
    requires v.fs.inodes == map[0 := Inode(2 * REC, NoSectors()[0 := start])]
    requires Shape(v) == Tree(map[0 := NewListing(0, 0)], {}, map[0 := 0])
    ensures HasFiles(v, 0)
  {
    hide NoSectors, TreeOf;
  }

  method AddFiles(vol: Volume)
    requires vol.Valid() && HasFiles(vol.Now(), 0)
    modifies vol.part, vol.part.disk, vol.part.blockBitmap.bits, vol.inodeBitmap.bits
    ensures vol.Valid() && HasFiles(vol.Now(), FILES)
    ensures vol.part.disk.Length > 0 && vol.part.disk[0] == old(vol.part.disk[0])
  {
    hide Good, Shape, HasFiles, InodeBits, LowFree, Created, Entries, FirstDead, NoSectors, Sizes, ClearBits,
         Bitmap.Contents, Bitmap.Valid;
    SizesOfVol(vol.Now());
    var k := 0;
    while k < FILES
      invariant 0 <= k <= FILES && vol.Valid() && HasFiles(vol.Now(), k)
      invariant vol.part.disk.Length > 0 && vol.part.disk[0] == old(vol.part.disk[0])
    {
      AddOne(vol, k);
      k := k + 1;
    }
  }

  method AddOne(vol: Volume, k: nat)
    requires vol.Valid() && k < FILES && HasFiles(vol.Now(), k)
    modifies vol.part, vol.part.disk, vol.part.blockBitmap.bits, vol.inodeBitmap.bits
    ensures vol.Valid() && HasFiles(vol.Now(), k + 1)
    ensures vol.part.disk.Length > 0 && vol.part.disk[0] == old(vol.part.disk[0])
  {
    hide Good, Shape, InodeBits, LowFree, Created, Entries, FirstDead, NoSectors, Sizes, ClearBits, Bitmap.Contents,
         Bitmap.Valid;
    ghost var v := vol.Now();
    RootCount(v, k);
    NameFacts(k, k);
    FewUsed(vol.part.inodes);
    var made, spills := vol.Create(0, FileName(k), true);
    OneMoreFile(v, vol.Now(), k, made.value.value);
  }

  /** One file more: the entry spills, by what the words of sector 0 say. Unless it finds no place or the call
      halts, the file is made and the volume is not good any more; with zeros in front of sector 0 that is so. */
  method OneTooMany(vol: Volume) returns (r: Outcome<Option<Word>>, spills: bool)
    requires vol.Valid() && HasFiles(vol.Now(), FILES)
    modifies vol.part, vol.part.disk, vol.part.blockBitmap.bits, vol.inodeBitmap.bits
    ensures |old(vol.part.inodes)| < LOW && spills
    ensures r.Done? ==> (vol.Valid() <==> r.value.None?)
    ensures vol.part.disk.Length > 0 && Meets(r, FateOf(old(vol.part.Model())))
    ensures r.Done? ==> (r.value.Some? <==> FateOf(old(vol.part.Model())).Stored?)
    ensures WordAt(old(vol.part.disk[0]), 0) == 0 ==> r.Done? && r.value.Some? && !vol.Valid()
  {
    hide FateOf, WordAt, Good, Shape, InodeBits, LowFree, Created, Entries, FirstDead, NoSectors, Sizes, ClearBits,
         Bitmap.Contents, Bitmap.Valid;
    ghost var v := vol.Now();
    SizesOfVol(v);
    RootCount(v, FILES);
    NameFacts(FILES, FILES);
    FewUsed(vol.part.inodes);
    if WordAt(v.fs.disk[0], 0) == 0 {
      ZerosStore(v.fs);
    }
    r, spills := vol.Create(0, FileName(FILES), true);
  }

  /** A run that breaks a volume: on any disk whose sector 0 begins with zeros, format a partition of 13 blocks or
      more and create 251 files. No call fails, and the volume is not good in the end. */
  method BreakVolume(disk: array<Sector>, start: nat, bitLen: nat, blockBitmap: Bitmap, inodeBitmap: Bitmap)
    returns (vol: Volume)
    requires blockBitmap.Valid() && inodeBitmap.Valid() && inodeBitmap.bits != blockBitmap.bits
    requires disk as object != blockBitmap.bits && disk as object != inodeBitmap.bits
    requires 13 <= bitLen && blockBitmap.len == SECTOR * BitmapSectors(bitLen) && 8 * inodeBitmap.len == INODES
    requires 0 < start && start + CountedBlocks(bitLen) <= disk.Length && start + 8 * blockBitmap.len < 0x1_0000_0000
    requires WordAt(disk[0], 0) == 0
    modifies disk, blockBitmap.bits, inodeBitmap.bits
    ensures fresh(vol) && !vol.Valid()
  {
    hide FateOf, WordAt, HasFiles, VolInv, Shape, InodeBits, BitmapSectors, CountedBlocks, Bitmap.Contents,
         Bitmap.Valid;
    vol := FillRoot(disk, start, bitLen, blockBitmap, inodeBitmap);
    var r, spills := OneTooMany(vol);
  }
}
