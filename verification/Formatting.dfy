/** The freshly formatted partition (partition_format in src/fs/fs.c), and what holds after any
    sequence of system calls on it. */
module Formatting {
  import opened Results
  import opened Bytes
  import opened Bitmaps
  import opened Blocks
  import opened Partitions
  import opened Files
  import opened DirTables
  import opened Directories
  import opened DirSpills
  import opened Paths
  import opened Trees
  import opened TreePaths
  import opened Volumes
  import opened FileSystem
  import opened Searching
  import opened Syscalls
  import opened Sets

  /** The root directory alone: inode 0, in the first data block. */
  ghost predicate Formatted(fs: Fs) {
    && Sizes(fs) && 0 < fs.usable <= |fs.bits|
    && fs.inodes == map[0 := Inode(2 * REC, NoSectors()[0 := fs.start])]
    && fs.disk[fs.start] == DotsSector(0, 0)
    && forall b :: 0 <= b < |fs.bits| ==> (fs.bits[b] <==> b == 0 || b >= fs.usable)
  }

  /** It is a good volume: a tree of one directory that is its own parent. */
  lemma FormattedIsGood(fs: Fs)
    requires Formatted(fs)
    ensures VolInv(fs, {0}, map[0 := 0])
    ensures TreeOf(fs, {0}, map[0 := 0]) == Tree(map[0 := NewListing(0, 0)], {}, map[0 := 0])
  {
    hide OwnInv, Slots, NewListing, DotsSector, NoSectors, DirOk, FileOk, DirMap, TreeInv;
    FormattedOwns(fs);
    NewDir(fs, 0, 0, fs.start);
    OwnSector(fs, 0, 0);
    SectorZero(fs.start);
    var t := TreeOf(fs, {0}, map[0 := 0]);
    assert t.dirs == map[0 := NewListing(0, 0)];
    assert t.files == {};
    RootTree();
  }

  lemma SectorZero(lba: Word)
    ensures NoSectors()[0 := lba][0] == lba
  {
  }

  lemma FormattedOwns(fs: Fs)
    requires Formatted(fs)
    ensures OwnInv(fs)
  {
    hide Slots, DotsSector, NoSectors;
    OneSlot(fs.disk, 2 * REC, fs.start);
    var own := Own(fs);
    var slots := own[0];
    forall b | 0 <= b < fs.usable ensures fs.bits[b] <==> Reaches(own, fs.start + b) {
      OneReached(own, fs.start, fs.start + b);
    }
  }

  lemma OneReached(own: map<nat, seq<Word>>, lba: Word, a: int)
    requires own.Keys == {0} && |own[0]| == SLOTS && own[0][0] == lba && a > 0
    requires forall k :: 1 <= k < SLOTS ==> own[0][k] == 0
    ensures Reaches(own, a) <==> a == lba
  {
    if a == lba {
      assert 0 in own && a in own[0];
    }
  }

  lemma RootTree()
    ensures TreeInv(Tree(map[0 := NewListing(0, 0)], {}, map[0 := 0]))
  {
    hide Once, AllListed, Names;
    var t := Tree(map[0 := NewListing(0, 0)], {}, map[0 := 0]);
    assert DirDots(t, 0) && DepthOk(t, 0);
    RootListsNothing(t);
  }

  lemma RootListsNothing(t: Tree)
    requires t == Tree(map[0 := NewListing(0, 0)], {}, map[0 := 0])
    ensures Once(t) && AllListed(t) && Names(t)
  {
    DotNames();
  }

  /** Sectors of the block bitmap. */
  function BitmapSectors(bitLen: nat): nat {
    (bitLen + 4095) / 4096
  }

  /** Blocks that the formatted bitmap counts: the inclusive loop adds one, unless the map ends there. */
  function CountedBlocks(bitLen: nat): nat {
    if bitLen % 4096 == 0 then bitLen else bitLen + 1
  }

  /** partition_format and mounting, for the data area: bitmaps, inode table and root directory. bitLen is
      block_bitmap_bit_len, the number of blocks that the partition has room for. */
  method Format(disk: array<Sector>, start: nat, bitLen: nat, blockBitmap: Bitmap, inodeBitmap: Bitmap)
    returns (vol: Volume)
    requires blockBitmap.Valid() && inodeBitmap.Valid() && inodeBitmap.bits != blockBitmap.bits
    requires disk as object != blockBitmap.bits && disk as object != inodeBitmap.bits
    requires 8 <= bitLen && blockBitmap.len == SECTOR * BitmapSectors(bitLen) && 8 * inodeBitmap.len == INODES
    requires 0 < start && start + CountedBlocks(bitLen) <= disk.Length && start + 8 * blockBitmap.len < 0x1_0000_0000
    modifies disk, blockBitmap.bits, inodeBitmap.bits
    ensures fresh(vol) && fresh(vol.part) && vol.Valid()
    ensures vol.part.disk == disk && vol.part.blockBitmap == blockBitmap && vol.inodeBitmap == inodeBitmap
    ensures vol.part.usable == CountedBlocks(bitLen) && vol.dirs == {0}
    ensures vol.part.inodes == map[0 := Inode(2 * REC, NoSectors()[0 := start])]
    ensures Shape(vol.Now()) == Tree(map[0 := NewListing(0, 0)], {}, map[0 := 0])
    ensures forall a :: 0 <= a < disk.Length && a != start ==> disk[a] == old(disk[a])
  {
    hide VolInv, TreeOf, DotsSector, NoSectors, NewListing, InodeBits, Bitmap.Contents;
    FillBlockBitmap(blockBitmap, bitLen);
    FillInodeBitmap(inodeBitmap);
    disk[start] := DotsSector(0, 0);
    var part := new Partition(disk, start, CountedBlocks(bitLen), blockBitmap,
        map[0 := Inode(2 * REC, NoSectors()[0 := start])]);
    vol := new Volume(part, inodeBitmap, {0}, map[0 := 0]);
    FormattedIsGood(part.Model());
    RootBits(inodeBitmap.Contents());
    assert part.inodes.Keys == {0};
  }

  lemma RootBits(bits: seq<bool>)
    requires |bits| == INODES && forall b :: 0 <= b < |bits| ==> (bits[b] <==> b == 0)
    ensures InodeBits(bits, {0})
  {
  }

  /** The map that partition_format writes: a buffer of zeros, the first bit set, everything from the last byte
      on to the end of its sector set, and the bits of that byte cleared again, one too many. */
  function FormatByte(j: nat, bitLen: nat): bv8 {
    if j == bitLen / 8 then Clearing(0xFF, bitLen % 8 + 1)
    else if j == 0 then 1 else if j < bitLen / 8 then 0 else 0xFF
  }

  /** The byte with its first n bits cleared, one after the other. */
  function Clearing(b: bv8, n: nat): bv8
    requires n <= 8
  {
    if n == 0 then b else WithBit(Clearing(b, n - 1), n - 1, false)
  }

  lemma {:induction false} ClearingBit(b: bv8, n: nat, k: nat)
    requires n <= 8 && k < 8
    ensures ByteBit(Clearing(b, n), k) == (k >= n && ByteBit(b, k))
  {
    hide ByteBit, WithBit;
    if n > 0 {
      ClearingBit(b, n - 1, k);
      WithBitBit(Clearing(b, n - 1), n - 1, false, k);
    }
  }

  lemma PlainBytes(k: nat)
    requires k < 8
    ensures !ByteBit(0, k) && (ByteBit(1, k) <==> k == 0) && ByteBit(0xFF, k)
  {
    assert k == 0 || k == 1 || k == 2 || k == 3 || k == 4 || k == 5 || k == 6 || k == 7;
  }

  lemma FormatBit(bitLen: nat, i: nat)
    requires bitLen >= 8
    ensures ByteBit(FormatByte(i / 8, bitLen), i % 8) <==> i == 0 || i > bitLen
  {
    hide ByteBit, Clearing;
    PlainBytes(i % 8);
    ClearingBit(0xFF, bitLen % 8 + 1, i % 8);
  }

  /** Bit 0 is taken, and bits behind bitLen stand for nothing and stay set. */
  method FillBlockBitmap(b: Bitmap, bitLen: nat)
    requires b.Valid() && 8 <= bitLen && b.len == SECTOR * BitmapSectors(bitLen)
    modifies b.bits
    ensures forall i :: 0 <= i < 8 * b.len ==> (b.Contents()[i] <==> i == 0 || i > bitLen)
  {
    hide Bitmap.Contents, ByteBit, WithBit, FormatByte;
    var buf := FormatBuffer(bitLen);
    var j := 0;
    while j < b.len
      invariant 0 <= j <= b.len && forall k :: 0 <= k < j ==> b.bits[k] == FormatByte(k, bitLen)
      invariant forall k :: 0 <= k < buf.Length ==> buf[k] == FormatByte(k, bitLen)
    {
      b.bits[j] := buf[j];
      j := j + 1;
    }
    forall i | 0 <= i < 8 * b.len ensures b.Contents()[i] <==> i == 0 || i > bitLen {
      b.BitInByte(i / 8, i % 8);
      FormatBit(bitLen, i);
    }
  }

  /** The buffer: at least one sector behind the last byte. */
  method FormatBuffer(bitLen: nat) returns (buf: array<bv8>)
    requires 8 <= bitLen
    ensures fresh(buf) && buf.Length >= SECTOR * BitmapSectors(bitLen)
    ensures forall k :: 0 <= k < buf.Length ==> buf[k] == FormatByte(k, bitLen)
  {
    hide WithBit, Clearing, BitmapSectors;
    var lastByte := bitLen / 8;
    var lastSize := SECTOR - lastByte % SECTOR;
    LongEnough(bitLen);
    buf := new bv8[lastByte + lastSize](_ => 0);
    buf[0] := 1;
    var i := 0;
    while i < lastSize
      invariant 0 <= i <= lastSize && buf[0] == 1
      invariant forall k :: 0 < k < buf.Length ==> buf[k] == if lastByte <= k < lastByte + i then 0xFF else 0
    {
      buf[lastByte + i] := 0xFF;
      i := i + 1;
    }
    ClearBack(buf, lastByte, bitLen % 8);
  }

  lemma LongEnough(bitLen: nat)
    ensures bitLen / 8 + SECTOR - bitLen / 8 % SECTOR >= SECTOR * BitmapSectors(bitLen)
    ensures 4096 * BitmapSectors(bitLen) < bitLen + 4096 && bitLen <= 4096 * BitmapSectors(bitLen)
  {
  }

  /** The bits of the last byte that stand for blocks are cleared again, the one behind them too. */
  method ClearBack(buf: array<bv8>, lastByte: nat, lastBit: nat)
    requires lastByte < buf.Length && buf[lastByte] == 0xFF && lastBit < 8
    modifies buf
    ensures buf[lastByte] == Clearing(0xFF, lastBit + 1)
    ensures forall k :: 0 <= k < buf.Length && k != lastByte ==> buf[k] == old(buf[k])
  {
    hide WithBit;
    var bitIdx := 0;
    while bitIdx <= lastBit
      invariant 0 <= bitIdx <= lastBit + 1 && buf[lastByte] == Clearing(0xFF, bitIdx)
      invariant forall k :: 0 <= k < buf.Length && k != lastByte ==> buf[k] == old(buf[k])
    {
      buf[lastByte] := WithBit(buf[lastByte], bitIdx, false);
      bitIdx := bitIdx + 1;
    }
  }

  /** Inode 0 is taken. */
  method FillInodeBitmap(b: Bitmap)
    requires b.Valid() && b.len > 0
    modifies b.bits
    ensures forall i :: 0 <= i < 8 * b.len ==> (b.Contents()[i] <==> i == 0)
  {
    hide Bitmap.Contents, ByteBit;
    var j := 0;
    while j < b.len
      invariant 0 <= j <= b.len && forall k :: 0 <= k < j ==> b.bits[k] == 0
    {
      b.bits[j] := 0;
      j := j + 1;
    }
    b.bits[0] := 1;
    forall i | 0 <= i < 8 * b.len ensures b.Contents()[i] <==> i == 0 {
      b.BitInByte(i / 8, i % 8);
      PlainBytes(i % 8);
    }
  }

  // ---------------------------------------------------------------------------------------
  // Runs.

  datatype Call =
    | CallMkdir(path: Path)
    | CallCreate(path: Path, slotFree: bool, fdFree: bool)
    | CallUnlink(path: Path, inUse: bool)
    | CallRmdir(path: Path)
    | CallWrite(path: Path, buf: seq<Byte>)

  /** How a call ends: the system goes on, or it has halted, or an entry spilled out of a full directory. */
  datatype End = Alive | Halted | Spilled

  /** What the system asks of a caller: a path it can parse, a buffer in user space, and for rmdir
      no "." at the end, which breaks the tree. */
  ghost predicate CallOk(c: Call) {
    && PathOk(c.path)
    && (c.CallRmdir? && Components(c.path) != [] ==> Last(Components(c.path)) != DOT)
    && (c.CallWrite? ==> |c.buf| < 0xC000_0000)
  }

  /** When writing n bytes halts: the file would get exactly 71680 bytes long, or fewer blocks are free than the
      bytes need. */
  ghost predicate WriteHalts(v: Vol, names: seq<Name>, n: nat) {
    && Sizes(v.fs) && AtFile(Shape(v), names)
    && var f: nat := Resolve(Shape(v), 0, names).value.ino;
       && f in v.fs.inodes
       && var ino := v.fs.inodes[f];
          ino.size + n == MAX_BYTES || (ino.size + n < MAX_BYTES && ClearBits(v.fs.bits) < ToTake(ino, n))
  }

  /** The path ends at a file that stays below 71680 bytes with n more. */
  ghost predicate WriteFits(v: Vol, names: seq<Name>, n: nat) {
    && Sizes(v.fs) && AtFile(Shape(v), names)
    && var f: nat := Resolve(Shape(v), 0, names).value.ino; f in v.fs.inodes && v.fs.inodes[f].size + n < MAX_BYTES
  }

  /** Opening a file by its path and writing to it. */
  method WriteTo(vol: Volume, path: Path, buf: seq<Byte>) returns (r: Outcome<Reply>)
    requires vol.Valid() && PathOk(path) && |buf| < 0xC000_0000
    modifies vol.part, vol.part.disk, vol.part.blockBitmap.bits
    ensures r.Done? ==> vol.Valid()
    ensures r.Done? && r.value.Count? ==>
              AtFile(Shape(old(vol.Now())), Components(path))
                && WroteAt(old(vol.Now()), vol.Now(), Components(path), buf)
    ensures r == Done(Refused) ==> vol.Now() == old(vol.Now())
    ensures r.Done? <==> !WriteHalts(old(vol.Now()), Components(path), |buf|)
    ensures r.Done? ==> (r.value.Count? <==> WriteFits(old(vol.Now()), Components(path), |buf|))
  {
    hide ClearBits, ToTake, Good, Shape, TreeInv, Components, Resolve, SearchIn, PathOk, Wrote, InodeBits, Sizes,
         OwnInv, DirOk, EndsAt, MayDrop, Bitmap.Contents, Bitmap.Valid;
    ghost var v := vol.Now();
    TreeOfVol(v);
    var found := SearchFile(vol, path);
    if found.item.None? || found.item.value.kind == FT_DIRECTORY {
      return Done(Refused);
    }
    var item := found.item.value;
    ghost var t := Shape(v);
    FileFound(v, path, found);
    var file := new File(item.ino);
    r := vol.Write(file, buf);
  }

  ghost predicate WroteAt(v: Vol, w: Vol, names: seq<Name>, buf: seq<Byte>) {
    && Good(v) && Sizes(v.fs) && Resolve(Shape(v), 0, names).Some?
    && var f: nat := Resolve(Shape(v), 0, names).value.ino; f in v.fs.inodes && Wrote(v, w, f, buf)
  }

  lemma FileFound(v: Vol, path: Path, r: Search)
    requires Good(v) && Sizes(v.fs) && TreeInv(Shape(v)) && r.item == Resolve(Shape(v), 0, Components(path))
             && r.item.Some?
    requires !IsRootPath(path) ==> Components(path) != [] && r == SearchIn(Shape(v), 0, Components(path))
    requires IsRootPath(path) ==> r.item == Some(Item(0, FT_DIRECTORY))
    requires r.item.value.kind != FT_DIRECTORY
    ensures r.item.value.ino in v.fs.inodes && r.item.value.ino !in v.dirs && r.item.value.kind == FT_REGULAR
  {
    hide OwnInv, RootDir, ShapesOk, DirMap, TreeInv, Resolve, SearchIn, Components;
    var t, names := Shape(v), Components(path);
    RootThereIn(t);
    SearchFacts(t, 0, names);
    FileEntry(t, r.parent, names[r.seen - 1]);
  }

  lemma FileEntry(t: Tree, d: nat, n: Name)
    requires TreeInv(t) && d in t.dirs && n in t.dirs[d] && t.dirs[d][n].kind != FT_DIRECTORY
    ensures t.dirs[d][n].ino in t.files && t.dirs[d][n].kind == FT_REGULAR
  {
    hide Once, AllListed, Depths, Names;
    assert DirDots(t, d);
    assert Fits(t, d, n);
  }

  /** The call asks for an entry in a full directory. */
  ghost predicate IntoFullDir(v: Vol, c: Call) {
    (c.CallMkdir? || c.CallCreate?) && IntoFull(v, Components(c.path))
  }

  /** There is a place for a new entry: all components but the last lead to a directory that lacks it and is not
      full. */
  ghost predicate HasPlace(v: Vol, names: seq<Name>) {
    Sizes(v.fs) && !IntoFull(v, names) && exists d :: Missing(Shape(v), names, d)
  }

  /** What a call that neither halts nor spills does to the volume: what it is for if it can be done, else nothing
      that can be seen. */
  ghost predicate Served(v: Vol, c: Call, w: Vol) {
    && Good(v) && Good(w)
    && var names := Components(c.path);
       match c
       case CallMkdir(_) => if HasPlace(v, names) then MkdirAt(v, w, names) else Unseen(v, w)
       case CallCreate(path, slotFree, _) =>
         if HasPlace(v, names) && slotFree && path[|path| - 1] != SLASH then CreatedAt(v, w, names) else w == v
       case CallUnlink(_, inUse) =>
         if !inUse && AtFile(Shape(v), names)
         then exists d: nat, k: nat, item :: UnlinkedAt(v, w, names, d, k, item)
         else w == v
       case CallRmdir(_) =>
         if AtEmptyDir(Shape(v), names) then exists d: nat, item :: RemovedAt(v, w, names, d, item) else w == v
       case CallWrite(_, buf) => if WriteFits(v, names, |buf|) then WroteAt(v, w, names, buf) else w == v
  }

  ghost predicate MkdirAt(v: Vol, w: Vol, names: seq<Name>)
    requires Good(v)
  {
    names != [] && exists d: nat, c: Word :: Missing(Shape(v), names, d) && MadeDir(v, w, d, Last(names), c)
  }

  ghost predicate CreatedAt(v: Vol, w: Vol, names: seq<Name>)
    requires Good(v)
  {
    names != [] && exists d: nat, c: Word :: Missing(Shape(v), names, d) && Created(v, w, d, Last(names), c)
  }

  /** When a call may halt the system: for lack of the blocks that an entry needs, or for an entry in a full directory
      that sector 0 sends off the disk; for the root in unlink and rmdir; for a write as above. */
  ghost predicate MayHalt(v: Vol, c: Call) {
    && Sizes(v.fs) && |v.fs.disk| > 0
    && match c
       case CallMkdir(path) => NoRoom(v, Components(path), 2)
       case CallCreate(path, _, _) => NoRoom(v, Components(path), 1)
       case CallUnlink(path, _) => AtRoot(Shape(v), Components(path))
       case CallRmdir(path) => AtRoot(Shape(v), Components(path))
       case CallWrite(path, buf) => WriteHalts(v, Components(path), |buf|)
  }

  /** Fewer than n blocks are free, or n + 1 for a full directory, whose entry may go off the disk as well. */
  ghost predicate NoRoom(v: Vol, names: seq<Name>, n: nat) {
    ClearBits(v.fs.bits) < n
      || (IntoFull(v, names) && (ClearBits(v.fs.bits) < n + 1 || (|v.fs.disk| > 0 && OffDisk(v.fs.disk))))
  }

  /** One call. As long as it asks for no entry in a full directory and does not halt, the volume stays good and the
      call has done what it is for. It halts only when it may, and if it makes no entry exactly then. */
  method Serve(vol: Volume, c: Call) returns (end: End)
    requires vol.Valid() && CallOk(c) && LowFree(vol.part.inodes.Keys)
    modifies vol, vol.part, vol.part.disk, vol.part.blockBitmap.bits, vol.inodeBitmap.bits
    ensures end.Alive? ==> vol.Valid() && Served(old(vol.Now()), c, vol.Now())
    ensures end.Spilled? ==> !vol.Valid() && IntoFullDir(old(vol.Now()), c)
    ensures end.Halted? ==> MayHalt(old(vol.Now()), c)
    ensures !c.CallMkdir? && !c.CallCreate? && MayHalt(old(vol.Now()), c) ==> end.Halted?
  {
    hide ClearBits, OffDisk, Sizes, Shape, WriteHalts, WriteFits, Good, Components, InodeBits, LowFree, AtRoot,
         AtEmptyDir, AtFile, DanglingAt, RemovedAt, UnlinkedAt, WroteAt, Missing, MadeDir, Created, Unseen, IntoFull,
         Bitmap.Contents, Bitmap.Valid;
    SizesOfVol(vol.Now());
    match c {
      case CallMkdir(path) => end := ServeMkdir(vol, path);
      case CallCreate(path, slotFree, fdFree) => end := ServeCreate(vol, path, slotFree, fdFree);
      case CallUnlink(path, inUse) =>
        var r := SysUnlink(vol, path, inUse);
        end := if r.Done? then Alive else Halted;
      case CallRmdir(path) =>
        var r := SysRmdir(vol, path);
        end := if r.Done? then Alive else Halted;
      case CallWrite(path, buf) =>
        var r := WriteTo(vol, path, buf);
        end := if r.Done? then Alive else Halted;
    }
  }

  method ServeMkdir(vol: Volume, path: Path) returns (end: End)
    requires vol.Valid() && PathOk(path) && LowFree(vol.part.inodes.Keys)
    modifies vol, vol.part, vol.part.disk, vol.part.blockBitmap.bits, vol.inodeBitmap.bits
    ensures end.Alive? ==> vol.Valid() && Served(old(vol.Now()), CallMkdir(path), vol.Now())
    ensures end.Spilled? ==> !vol.Valid() && IntoFull(old(vol.Now()), Components(path))
    ensures end.Halted? ==> MayHalt(old(vol.Now()), CallMkdir(path))
  {
    hide ClearBits, OffDisk, Sizes, Shape, Good, PathOk, Components, InodeBits, LowFree, Missing, MadeDir, Unseen,
         IntoFull, Bitmap.Contents, Bitmap.Valid;
    SizesOfVol(vol.Now());
    var r, spills := SysMkdir(vol, path);
    end := if !r.Done? then Halted else if spills && r.value then Spilled else Alive;
    ghost var v, names := old(vol.Now()), Components(path);
    MissingNotEmpty(v, names);
    if end.Alive? {
      if r.value {
        assert r == Done(true);
        assert MkdirAt(v, vol.Now(), names);
        assert HasPlace(v, names);
      } else {
        assert r == Done(false);
        assert !HasPlace(v, names);
      }
    }
  }

  method ServeCreate(vol: Volume, path: Path, slotFree: bool, fdFree: bool) returns (end: End)
    requires vol.Valid() && PathOk(path) && LowFree(vol.part.inodes.Keys)
    modifies vol.part, vol.part.disk, vol.part.blockBitmap.bits, vol.inodeBitmap.bits
    ensures end.Alive? ==> vol.Valid() && Served(old(vol.Now()), CallCreate(path, slotFree, fdFree), vol.Now())
    ensures end.Spilled? ==> !vol.Valid() && IntoFull(old(vol.Now()), Components(path))
    ensures end.Halted? ==> MayHalt(old(vol.Now()), CallCreate(path, slotFree, fdFree))
  {
    hide ClearBits, OffDisk, Sizes, Shape, Good, Components, InodeBits, LowFree, Missing, Created, IntoFull,
         Bitmap.Contents, Bitmap.Valid;
    SizesOfVol(vol.Now());
    var r, made, spills := SysCreate(vol, path, slotFree, fdFree);
    end := if !r.Done? then Halted else if spills && made.Some? then Spilled else Alive;
    ghost var v, names := old(vol.Now()), Components(path);
    MissingNotEmpty(v, names);
    if end.Alive? {
      if made.Some? {
        assert CreatedAt(v, vol.Now(), names);
        assert HasPlace(v, names);
      } else {
        assert !HasPlace(v, names) || !slotFree || path[|path| - 1] == SLASH;
      }
    }
  }

  lemma MissingNotEmpty(v: Vol, names: seq<Name>)
    requires Sizes(v.fs)
    ensures (exists d :: Missing(Shape(v), names, d)) ==> names != []
    ensures forall d :: Missing(Shape(v), names, d) ==> d >= 0
  {
    hide Shape, Resolve;
  }

  /** Good volumes, one call after the other. */
  ghost predicate Trace(trace: seq<Vol>, calls: seq<Call>) {
    && 1 <= |trace| <= |calls| + 1
    && (forall i :: 0 <= i < |trace| ==> Good(trace[i]))
    && forall i :: 0 <= i < |trace| - 1 ==> Served(trace[i], calls[i], trace[i + 1])
  }

  /** How a run ends behind the last good volume of its trace: with the last call, with all numbers below 256 in use,
      with a call that spills, or with one that halts and may do so. */
  ghost predicate Ends(trace: seq<Vol>, calls: seq<Call>, end: End) {
    && |trace| >= 1
    && (end.Alive? ==> |trace| == |calls| + 1 || |trace[|trace| - 1].fs.inodes| >= LOW)
    && (!end.Alive? ==> |trace| <= |calls|)
    && (end.Spilled? ==> |trace| <= |calls| && IntoFullDir(trace[|trace| - 1], calls[|trace| - 1]))
    && (end.Halted? ==> |trace| <= |calls| && MayHalt(trace[|trace| - 1], calls[|trace| - 1]))
  }

  /** After formatting any sequence of calls is served one by one, each doing what it is for, as long as fewer than
      256 inodes are in use, no call halts the system and none spills out of a full directory: every block has one
      owner, the bitmaps say which blocks and inodes are used, files and directories have their shape, directories
      form a tree. */
  method FormatAndServe(disk: array<Sector>, start: nat, bitLen: nat, blockBitmap: Bitmap, inodeBitmap: Bitmap,
                        calls: seq<Call>)
    returns (vol: Volume, end: End, ghost trace: seq<Vol>)
    requires blockBitmap.Valid() && inodeBitmap.Valid() && inodeBitmap.bits != blockBitmap.bits
    requires disk as object != blockBitmap.bits && disk as object != inodeBitmap.bits
    requires 8 <= bitLen && blockBitmap.len == SECTOR * BitmapSectors(bitLen) && 8 * inodeBitmap.len == INODES
    requires 0 < start && start + CountedBlocks(bitLen) <= disk.Length && start + 8 * blockBitmap.len < 0x1_0000_0000
    requires forall c :: c in calls ==> CallOk(c)
    modifies disk, blockBitmap.bits, inodeBitmap.bits
    ensures Trace(trace, calls) && Ends(trace, calls, end)
    ensures Sizes(trace[0].fs) && Shape(trace[0]) == Tree(map[0 := NewListing(0, 0)], {}, map[0 := 0])
    ensures end.Alive? ==>
              && vol.Valid() && vol.Now() == trace[|trace| - 1] && OwnInv(vol.part.Model()) && TreeInv(Shape(vol.Now()))
              && InodeBits(inodeBitmap.Contents(), vol.part.inodes.Keys)
  {
    hide MayHalt, CallOk, VolInv, OwnInv, TreeInv, TreeOf, InodeBits, LowFree, NewListing, NoSectors, IntoFullDir,
         Served, Trace, Ends, CountedBlocks, BitmapSectors, Bitmap.Contents, Bitmap.Valid;
    vol := Format(disk, start, bitLen, blockBitmap, inodeBitmap);
    end, trace := ServeAll(vol, calls);
    if end.Alive? {
      VolFacts(vol.part.Model(), vol.dirs, vol.depth);
    }
  }

  /** Calls one after the other. */
  method ServeAll(vol: Volume, calls: seq<Call>) returns (end: End, ghost trace: seq<Vol>)
    requires vol.Valid() && forall c :: c in calls ==> CallOk(c)
    modifies vol, vol.part, vol.part.disk, vol.part.blockBitmap.bits, vol.inodeBitmap.bits
    ensures Trace(trace, calls) && Ends(trace, calls, end) && trace != [] && trace[0] == old(vol.Now())
    ensures end.Alive? ==> vol.Valid() && vol.Now() == trace[|trace| - 1]
  {
    hide CallOk, Good, InodeBits, LowFree, IntoFullDir, MayHalt, Served, Bitmap.Contents, Bitmap.Valid;
    var served := 0;
    end, trace := Alive, [vol.Now()];
    while served < |calls| && end.Alive? && |vol.part.inodes| < LOW
      invariant served <= |calls| && |trace| == (if end.Alive? then served + 1 else served) && |trace| >= 1
      invariant (end.Alive? ==> vol.Valid() && vol.Now() == trace[|trace| - 1]) && trace[0] == old(vol.Now())
      invariant Trace(trace, calls)
      invariant end.Spilled? ==> IntoFullDir(trace[served - 1], calls[served - 1])
      invariant end.Halted? ==> MayHalt(trace[served - 1], calls[served - 1])
    {
      FewUsed(vol.part.inodes);
      end := Serve(vol, calls[served]);
      if end.Alive? {
        trace := trace + [vol.Now()];
      }
      served := served + 1;
    }
  }

  lemma FewUsed(inodes: map<nat, Inode>)
    requires |inodes| < LOW
    ensures LowFree(inodes.Keys)
  {
    hide Range;
    var low := Range(0, LOW);
    RangeFacts(0, LOW);
    RangeSize(0, LOW);
    if low <= inodes.Keys {
      SubsetCount(low, inodes.Keys);
    }
    assert |inodes.Keys| == |inodes|;
    var i :| i in low && i !in inodes.Keys;
  }
}
