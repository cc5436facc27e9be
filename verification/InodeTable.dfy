/** Model of src/fs/inode.c: records of 76 bytes packed over sectors of 512, the list of open
    inodes in front of them, and the 8-bit number in inode_sync. */
module InodeTable {
  import opened Bytes
  import opened Sequences

  const RECORD: nat := 76
  const COUNT: nat := 4096
  const TABLE_SECTORS: nat := 608      // 76 * 4096 / 512
  const LOW: nat := 256

  /** What is stored of an inode: number, size, then open count, write_deny and list links, which
      are zero on the disk, around the 13 addresses. */
  datatype Record = Record(no: Word, size: Word, sectors: seq<Word>)

  function RecordBytes(r: Record): (s: seq<Byte>)
    requires |r.sectors| == 13
    ensures |s| == RECORD
  {
    EncodeWords([r.no, r.size, 0, 0] + r.sectors + [0, 0])
  }

  function BytesRecord(s: seq<Byte>): (r: Record)
    requires |s| == RECORD
    ensures |r.sectors| == 13
  {
    var ws := DecodeWords(s, 19);
    Record(ws[0], ws[1], ws[4..17])
  }

  lemma RecordRoundTrip(r: Record)
    requires |r.sectors| == 13
    ensures BytesRecord(RecordBytes(r)) == r
  {
    var ws: seq<Word> := [r.no, r.size, 0, 0] + r.sectors + [0, 0];
    WordsRoundTrip(ws);
    assert ws[4..17] == r.sectors;
  }

  // ---------------------------------------------------------------------------------------
  // The table as one run of bytes.

  /** Byte x behind the start of the table. */
  function At(disk: seq<Sector>, lba: nat, x: nat): Byte
    requires lba + TABLE_SECTORS <= |disk| && x < RECORD * COUNT
  {
    disk[lba + x / SECTOR][x % SECTOR]
  }

  /** The bytes of record i. */
  function Stored(disk: seq<Sector>, lba: nat, i: nat): (s: seq<Byte>)
    requires lba + TABLE_SECTORS <= |disk| && i < COUNT
    ensures |s| == RECORD
  {
    seq<Byte>(RECORD, k requires 0 <= k < RECORD => At(disk, lba, RECORD * i + k))
  }

  /** The disks differ at most in the bytes of record i, which are s. */
  ghost predicate Spliced(disk: seq<Sector>, disk': seq<Sector>, lba: nat, i: nat, s: seq<Byte>) {
    && lba + TABLE_SECTORS <= |disk| == |disk'| && i < COUNT && |s| == RECORD
    && (forall x :: 0 <= x < RECORD * COUNT ==>
          At(disk', lba, x) == if RECORD * i <= x < RECORD * i + RECORD then s[x - RECORD * i] else At(disk, lba, x))
    && (forall a :: 0 <= a < |disk| && !(lba <= a < lba + TABLE_SECTORS) ==> disk'[a] == disk[a])
  }

  lemma SplicedReads(disk: seq<Sector>, disk': seq<Sector>, lba: nat, i: nat, s: seq<Byte>, j: nat)
    requires Spliced(disk, disk', lba, i, s) && j < COUNT
    ensures Stored(disk', lba, j) == if j == i then s else Stored(disk, lba, j)
  {
    hide At;
    var r := Stored(disk', lba, j);
    forall k | 0 <= k < RECORD ensures r[k] == if j == i then s[k] else Stored(disk, lba, j)[k] {
      assert r[k] == At(disk', lba, RECORD * j + k);
    }
  }

  // ---------------------------------------------------------------------------------------
  // inode_locate and the transfer of a record.

  datatype Position = Position(twoSec: bool, secLba: nat, offSize: nat)

  function Locate(lba: nat, no: nat): (p: Position)
    ensures no < COUNT ==>
              && p.offSize < SECTOR && SECTOR * (p.secLba - lba) + p.offSize == RECORD * no
              && (p.twoSec <==> p.offSize + RECORD > SECTOR)
              && lba <= p.secLba && p.secLba + (if p.twoSec then 2 else 1) <= lba + TABLE_SECTORS
  {
    var off := no * RECORD;
    Position(SECTOR - off % SECTOR < RECORD, lba + off / SECTOR, off % SECTOR)
  }

  /** The two sectors of a buffer. */
  function First(b: seq<Byte>): Sector
    requires |b| == 2 * SECTOR
  {
    b[..SECTOR]
  }

  function Second(b: seq<Byte>): Sector
    requires |b| == 2 * SECTOR
  {
    b[SECTOR..]
  }

  /** A sector with 76 bytes put at an offset. */
  function Patch(s: Sector, off: nat, r: seq<Byte>): Sector
    requires off + RECORD <= SECTOR && |r| == RECORD
  {
    s[..off] + r + s[off + RECORD..]
  }

  function PatchTwo(b: seq<Byte>, off: nat, r: seq<Byte>): (c: seq<Byte>)
    requires off + RECORD <= |b| && |r| == RECORD
    ensures |c| == |b|
  {
    b[..off] + r + b[off + RECORD..]
  }

  /** Two sectors in a row, as the buffer holds them. */
  function Two(disk: seq<Sector>, a: nat): (s: seq<Byte>)
    requires a + 1 < |disk|
    ensures |s| == 2 * SECTOR
  {
    var first: seq<Byte> := disk[a];
    first + disk[a + 1]
  }

  /** A byte of the table and the sector it is in. */
  lemma WhereIs(x: nat)
    ensures x == SECTOR * (x / SECTOR) + x % SECTOR && x % SECTOR < SECTOR
  {
  }

  lemma SpliceOne(disk: seq<Sector>, disk': seq<Sector>, lba: nat, i: nat, s: seq<Byte>, p: Position)
    requires lba + TABLE_SECTORS <= |disk| && i < COUNT && |s| == RECORD && p == Locate(lba, i) && !p.twoSec
    requires disk' == disk[p.secLba := Patch(disk[p.secLba], p.offSize, s)]
    ensures Spliced(disk, disk', lba, i, s)
  {
    hide Locate;
    forall x | 0 <= x < RECORD * COUNT
      ensures At(disk', lba, x) == if RECORD * i <= x < RECORD * i + RECORD then s[x - RECORD * i] else At(disk, lba, x)
    {
      WhereIs(x);
    }
  }

  lemma SpliceTwo(disk: seq<Sector>, disk': seq<Sector>, lba: nat, i: nat, s: seq<Byte>, p: Position, b: seq<Byte>)
    requires lba + TABLE_SECTORS <= |disk| && i < COUNT && |s| == RECORD && p == Locate(lba, i) && p.twoSec
    requires b == PatchTwo(Two(disk, p.secLba), p.offSize, s)
    requires disk' == disk[p.secLba := First(b)][p.secLba + 1 := Second(b)]
    ensures Spliced(disk, disk', lba, i, s)
  {
    hide Locate, At, PatchTwo, Two, First, Second;
    forall x | 0 <= x < RECORD * COUNT
      ensures At(disk', lba, x) == if RECORD * i <= x < RECORD * i + RECORD then s[x - RECORD * i] else At(disk, lba, x)
    {
      SpliceTwoAt(disk, disk', lba, i, s, p, b, x);
    }
  }

  /** Where byte x of the table is, in two sectors seen as one buffer. */
  lemma SpliceTwoAt(disk: seq<Sector>, disk': seq<Sector>, lba: nat, i: nat, s: seq<Byte>, p: Position, b: seq<Byte>,
                    x: nat)
    requires lba + TABLE_SECTORS <= |disk| && i < COUNT && |s| == RECORD && p == Locate(lba, i) && p.twoSec
             && x < RECORD * COUNT
    requires b == PatchTwo(Two(disk, p.secLba), p.offSize, s)
    requires disk' == disk[p.secLba := First(b)][p.secLba + 1 := Second(b)]
    ensures At(disk', lba, x) == if RECORD * i <= x < RECORD * i + RECORD then s[x - RECORD * i] else At(disk, lba, x)
  {
    hide Locate, PatchTwo;
    WhereIs(x);
    var q, r := lba + x / SECTOR, x % SECTOR;
    if q == p.secLba {
      PatchedAt(Two(disk, p.secLba), p.offSize, s, r);
      assert disk'[q][r] == b[r];
      assert Two(disk, p.secLba)[r] == disk[q][r];
    } else if q == p.secLba + 1 {
      PatchedAt(Two(disk, p.secLba), p.offSize, s, SECTOR + r);
      assert disk'[q][r] == b[SECTOR + r];
      assert Two(disk, p.secLba)[SECTOR + r] == disk[q][r];
    } else {
      assert disk'[q] == disk[q];
    }
  }

  lemma PatchedAt(b: seq<Byte>, off: nat, r: seq<Byte>, y: nat)
    requires off + RECORD <= |b| && |r| == RECORD && y < |b|
    ensures PatchTwo(b, off, r)[y] == if off <= y < off + RECORD then r[y - off] else b[y]
  {
  }

  lemma ReadOne(disk: seq<Sector>, lba: nat, i: nat, p: Position)
    requires lba + TABLE_SECTORS <= |disk| && i < COUNT && p == Locate(lba, i) && !p.twoSec
    ensures disk[p.secLba][p.offSize..p.offSize + RECORD] == Stored(disk, lba, i)
  {
    hide Locate;
    forall k | 0 <= k < RECORD ensures disk[p.secLba][p.offSize + k] == Stored(disk, lba, i)[k] {
      WhereIs(RECORD * i + k);
      assert Stored(disk, lba, i)[k] == At(disk, lba, RECORD * i + k);
    }
  }

  lemma ReadTwo(disk: seq<Sector>, lba: nat, i: nat, p: Position)
    requires lba + TABLE_SECTORS <= |disk| && i < COUNT && p == Locate(lba, i) && p.twoSec
    ensures Two(disk, p.secLba)[p.offSize..p.offSize + RECORD] == Stored(disk, lba, i)
  {
    hide Locate;
    forall k | 0 <= k < RECORD ensures Two(disk, p.secLba)[p.offSize + k] == Stored(disk, lba, i)[k] {
      WhereIs(RECORD * i + k);
      assert Stored(disk, lba, i)[k] == At(disk, lba, RECORD * i + k);
    }
  }

  /** An inode in memory. */
  class OpenInode {
    const no: nat
    var size: Word
    var sectors: seq<Word>
    var openCnts: nat
    var writeDeny: bool

    constructor (no: nat, size: Word, sectors: seq<Word>)
      ensures this.no == no && this.size == size && this.sectors == sectors && openCnts == 1 && !writeDeny
    {
      this.no, this.size, this.sectors, openCnts, writeDeny := no, size, sectors, 1, false;
    }

    function AsRecord(): Record
      reads this
    {
      Record(no % 0x1_0000_0000, size, sectors)
    }
  }

  /** The record that the disk holds for inode i. */
  ghost function OnDisk(disk: seq<Sector>, lba: nat, i: nat): Record
    requires lba + TABLE_SECTORS <= |disk| && i < COUNT
  {
    BytesRecord(Stored(disk, lba, i))
  }

  class Inodes {
    const disk: array<Sector>
    const lba: nat
    var open: seq<OpenInode>       // open_inodes, latest first

    constructor (disk: array<Sector>, lba: nat)
      ensures this.disk == disk && this.lba == lba && open == []
    {
      this.disk, this.lba, open := disk, lba, [];
    }

    /** Each inode is in the list at most once, with a user. */
    ghost predicate Wired()
      reads this, disk, open
    {
      && lba + TABLE_SECTORS <= disk.Length
      && (forall o :: o in open ==> o.no < LOW && |o.sectors| == 13 && o.openCnts >= 1)
      && (forall i, j :: 0 <= i < j < |open| ==> open[i].no != open[j].no)
    }

    /** Open inodes agree with the disk. */
    ghost predicate Valid()
      reads this, disk, open
    {
      Wired() && forall o :: o in open ==> o.AsRecord() == OnDisk(disk[..], lba, o.no)
    }

    /** inode_sync: the number is cut to 8 bits on the way. Only the record of that number changes,
        also when it straddles two sectors. */
    method InodeSync(o: OpenInode)
      requires lba + TABLE_SECTORS <= disk.Length && |o.sectors| == 13
      modifies disk
      ensures OnDisk(disk[..], lba, o.no % 256) == o.AsRecord()
      ensures forall j :: 0 <= j < COUNT && j != o.no % 256 ==>
              OnDisk(disk[..], lba, j) == OnDisk(old(disk[..]), lba, j)
      ensures forall a :: 0 <= a < disk.Length && !(lba <= a < lba + TABLE_SECTORS) ==> disk[a] == old(disk[a])
    {
      hide RecordBytes, BytesRecord, Stored, Spliced;
      ghost var was: seq<Sector> := disk[..];
      var no := o.no % 256;
      WriteRecord(no, RecordBytes(o.AsRecord()));
      SyncedRecords(was, disk[..], lba, no, o.AsRecord());
    }

    /** The read, splice and write of one or two sectors that inode_sync and inode_delete share. */
    method WriteRecord(no: nat, record: seq<Byte>)
      requires lba + TABLE_SECTORS <= disk.Length && no < COUNT && |record| == RECORD
      modifies disk
      ensures Spliced(old(disk[..]), disk[..], lba, no, record)
    {
      hide Locate, Stored, Spliced;
      ghost var was: seq<Sector> := disk[..];
      var p := Locate(lba, no);
      if p.twoSec {
        var inodeBuf: seq<Byte> := disk[p.secLba];
        inodeBuf := inodeBuf + disk[p.secLba + 1];
        assert inodeBuf == Two(was, p.secLba);
        inodeBuf := PatchTwo(inodeBuf, p.offSize, record);
        disk[p.secLba] := First(inodeBuf);
        disk[p.secLba + 1] := Second(inodeBuf);
        assert disk[..] == was[p.secLba := First(inodeBuf)][p.secLba + 1 := Second(inodeBuf)];
        SpliceTwo(was, disk[..], lba, no, record, p, inodeBuf);
      } else {
        var inodeBuf := disk[p.secLba];
        disk[p.secLba] := Patch(inodeBuf, p.offSize, record);
        assert disk[..] == was[p.secLba := Patch(was[p.secLba], p.offSize, record)];
        SpliceOne(was, disk[..], lba, no, record, p);
      }
    }

    /** inode_delete: the record is all zeros, every other one as it was. It uses the whole number, where
        inode_sync cuts it. */
    method InodeDelete(no: nat)
      requires lba + TABLE_SECTORS <= disk.Length && no < COUNT
      modifies disk
      ensures Stored(disk[..], lba, no) == seq(RECORD, _ => 0)
      ensures forall j :: 0 <= j < COUNT && j != no ==> OnDisk(disk[..], lba, j) == OnDisk(old(disk[..]), lba, j)
      ensures forall a :: 0 <= a < disk.Length && !(lba <= a < lba + TABLE_SECTORS) ==> disk[a] == old(disk[a])
    {
      hide BytesRecord, Stored, Spliced;
      ghost var was: seq<Sector> := disk[..];
      var zeros := seq<Byte>(RECORD, _ => 0);
      WriteRecord(no, zeros);
      SplicedRecords(was, disk[..], lba, no, zeros);
    }

    /** inode_open: the inode of the list, or else of the disk. */
    method InodeOpen(no: nat) returns (o: OpenInode)
      requires Valid() && no < LOW && OnDisk(disk[..], lba, no).no == no
      modifies this, open
      ensures Valid() && disk[..] == old(disk[..])
      ensures o in open && o.no == no && o.AsRecord() == OnDisk(disk[..], lba, no)
      ensures if exists e :: e in old(open) && e.no == no
              then o in old(open) && open == old(open) && o.openCnts == old(o.openCnts) + 1
              else fresh(o) && open == [o] + old(open) && o.openCnts == 1
      ensures forall e :: e in old(open) && e != o ==> e.openCnts == old(e.openCnts)
    {
      hide RecordBytes, BytesRecord, Locate, Stored;
      var at := Find(no);
      if at < |open| {
        o := open[at];
        o.openCnts := o.openCnts + 1;
        return;
      }
      var p := Locate(lba, no);
      var buf: seq<Byte> := disk[p.secLba];
      if p.twoSec {
        buf := buf + disk[p.secLba + 1];
        ReadTwo(disk[..], lba, no, p);
        assert buf == Two(disk[..], p.secLba);
      } else {
        ReadOne(disk[..], lba, no, p);
      }
      var r := BytesRecord(buf[p.offSize..p.offSize + RECORD]);
      o := new OpenInode(r.no, r.size, r.sectors);
      open := [o] + open;
    }

    /** The walk along the list. */
    method Find(no: nat) returns (at: nat)
      ensures at <= |open| && (at < |open| ==> open[at].no == no)
      ensures at == |open| ==> forall e :: e in open ==> e.no != no
    {
      at := 0;
      while at < |open| && open[at].no != no
        invariant at <= |open| && forall k :: 0 <= k < at ==> open[k].no != no
      {
        at := at + 1;
      }
    }

    /** inode_close: the last user takes the inode off the list. */
    method InodeClose(o: OpenInode)
      requires Wired() && o in open
      modifies this, o
      ensures Wired() && disk[..] == old(disk[..]) && (old(Valid()) ==> Valid())
      ensures if old(o.openCnts) == 1 then open == Without(old(open), o)
              else open == old(open) && o.openCnts + 1 == old(o.openCnts)
      ensures forall e :: e in old(open) && e != o ==> e in open && e.openCnts == old(e.openCnts)
      ensures forall e :: e in open ==> e in old(open) && e.AsRecord() == old(e.AsRecord())
    {
      hide RecordBytes, BytesRecord, Locate, Stored, OnDisk, Without, At;
      o.openCnts := o.openCnts - 1;
      if o.openCnts == 0 {
        var at := Find(o.no);
        assert open[at] == o;
        WithoutAt(open, at);
        open := open[..at] + open[at + 1..];
      }
    }

    /** The end of file_create: the new inode is written, then it becomes the first of the list. */
    method FileCreate(no: nat) returns (o: OpenInode)
      requires Valid() && no < LOW && forall e :: e in open ==> e.no != no
      modifies this, disk
      ensures Valid() && fresh(o) && open == [o] + old(open) && o.no == no && o.openCnts == 1
      ensures OnDisk(disk[..], lba, no) == NewRecord(no)
      ensures forall j :: 0 <= j < COUNT && j != no ==> OnDisk(disk[..], lba, j) == OnDisk(old(disk[..]), lba, j)
    {
      hide RecordBytes, BytesRecord, Locate, Stored;
      o := new OpenInode(no, 0, seq(13, _ => 0));
      InodeSync(o);
      open := [o] + open;
    }

    /** sys_mkdir writes the inode of the new directory without opening it. */
    method WriteNew(no: nat, size: Word, sectors: seq<Word>)
      requires Valid() && no < LOW && |sectors| == 13 && forall e :: e in open ==> e.no != no
      modifies disk
      ensures Valid() && OnDisk(disk[..], lba, no) == Record(no, size, sectors)
      ensures forall j :: 0 <= j < COUNT && j != no ==> OnDisk(disk[..], lba, j) == OnDisk(old(disk[..]), lba, j)
    {
      hide RecordBytes, BytesRecord, Locate, Stored;
      var o := new OpenInode(no, size, sectors);
      InodeSync(o);
    }

    /** The part of inode_release that is about the inode itself: opened, its record deleted, closed.
        List and disk agree afterwards iff nobody else had it open. */
    method InodeRelease(no: nat)
      requires Valid() && 0 < no < LOW && OnDisk(disk[..], lba, no).no == no
      modifies this, disk, open
      ensures Wired() && open == old(open) && forall e :: e in open ==>
              e.openCnts == old(e.openCnts) && e.AsRecord() == old(e.AsRecord())
      ensures forall j :: 0 <= j < COUNT && j != no ==> OnDisk(disk[..], lba, j) == OnDisk(old(disk[..]), lba, j)
      ensures Valid() <==> forall e :: e in open ==> e.no != no
    {
      hide RecordBytes, BytesRecord, Locate, Stored, OnDisk, Without, At;
      var o := InodeOpen(no);
      InodeDelete(no);
      Deleted(disk[..], lba, no);
      if o !in old(open) {
        WithoutFirst(old(open), o);
      }
      InodeClose(o);
      assert forall e :: e in open && e.no != no ==> e.AsRecord() == OnDisk(disk[..], lba, e.no);
    }

    /** sys_rmdir opens the directory before dir_remove releases it, and closes it behind that: in
        between the list holds the deleted inode, at the end it does not if nobody else had it open. */
    method DirRemove(no: nat)
      requires Valid() && 0 < no < LOW && OnDisk(disk[..], lba, no).no == no
      modifies this, disk, open
      ensures Wired() && open == old(open) && forall e :: e in open ==>
              e.openCnts == old(e.openCnts) && e.AsRecord() == old(e.AsRecord())
      ensures forall j :: 0 <= j < COUNT && j != no ==> OnDisk(disk[..], lba, j) == OnDisk(old(disk[..]), lba, j)
      ensures Valid() <==> forall e :: e in open ==> e.no != no
    {
      hide RecordBytes, BytesRecord, Locate, Stored, OnDisk, Without, At;
      var o := InodeOpen(no);
      InodeRelease(no);
      assert !Valid();
      if o !in old(open) {
        WithoutFirst(old(open), o);
      }
      InodeClose(o);
      assert forall e :: e in open && e.no != no ==> e.AsRecord() == OnDisk(disk[..], lba, e.no);
    }

    /** A file operation changes an open inode and syncs it: the list and the disk still agree. */
    method ChangeAndSync(o: OpenInode, size: Word, sectors: seq<Word>)
      requires Valid() && o in open && |sectors| == 13
      modifies disk, o
      ensures Valid() && open == old(open) && o.openCnts == old(o.openCnts)
      ensures OnDisk(disk[..], lba, o.no) == Record(o.no, size, sectors)
      ensures forall j :: 0 <= j < COUNT && j != o.no ==> OnDisk(disk[..], lba, j) == OnDisk(old(disk[..]), lba, j)
    {
      hide RecordBytes, BytesRecord, Locate, Stored;
      o.size, o.sectors := size, sectors;
      InodeSync(o);
    }
  }

  /** What file_create writes. */
  function NewRecord(no: nat): Record
    requires no < COUNT
  {
    Record(no, 0, seq(13, _ => 0))
  }

  /** A deleted record has number 0. */
  lemma Deleted(disk: seq<Sector>, lba: nat, no: nat)
    requires lba + TABLE_SECTORS <= |disk| && no < COUNT && Stored(disk, lba, no) == seq(RECORD, _ => 0)
    ensures OnDisk(disk, lba, no).no == 0
  {
    hide Stored;
    assert WordAt(Stored(disk, lba, no), 0) == 0;
  }

  lemma SplicedRecords(disk: seq<Sector>, disk': seq<Sector>, lba: nat, i: nat, s: seq<Byte>)
    requires Spliced(disk, disk', lba, i, s)
    ensures lba + TABLE_SECTORS <= |disk| == |disk'| && i < COUNT
    ensures Stored(disk', lba, i) == s
    ensures forall j :: 0 <= j < COUNT && j != i ==> OnDisk(disk', lba, j) == OnDisk(disk, lba, j)
    ensures forall a :: 0 <= a < |disk| && !(lba <= a < lba + TABLE_SECTORS) ==> disk'[a] == disk[a]
  {
    hide BytesRecord, Stored, At;
    SplicedReads(disk, disk', lba, i, s, i);
    forall j | 0 <= j < COUNT && j != i ensures OnDisk(disk', lba, j) == OnDisk(disk, lba, j) {
      SplicedReads(disk, disk', lba, i, s, j);
    }
  }

  lemma SyncedRecords(disk: seq<Sector>, disk': seq<Sector>, lba: nat, i: nat, r: Record)
    requires |r.sectors| == 13 && Spliced(disk, disk', lba, i, RecordBytes(r))
    ensures lba + TABLE_SECTORS <= |disk| == |disk'| && i < COUNT
    ensures OnDisk(disk', lba, i) == r
    ensures forall j :: 0 <= j < COUNT && j != i ==> OnDisk(disk', lba, j) == OnDisk(disk, lba, j)
    ensures forall a :: 0 <= a < |disk| && !(lba <= a < lba + TABLE_SECTORS) ==> disk'[a] == disk[a]
  {
    hide RecordBytes, BytesRecord, Stored, Spliced;
    RecordRoundTrip(r);
    SplicedRecords(disk, disk', lba, i, RecordBytes(r));
  }

  /** inode_sync keeps an inode, as a later read shows, for all contents exactly when its number is
      below 256: otherwise it overwrites the record of another number, and the old one stays. */
  lemma SyncNeedsLowNumber(no: nat)
    requires no < COUNT
    ensures (forall disk: seq<Sector>, lba: nat, r: Record ::
               lba + TABLE_SECTORS <= |disk| && |r.sectors| == 13 && r.no == no
               ==> OnDisk(Synced(disk, lba, no, r), lba, no) == r)
            <==> no < LOW
  {
    hide Synced, OnDisk;
    if no < LOW {
      forall disk: seq<Sector>, lba: nat, r: Record | lba + TABLE_SECTORS <= |disk| && |r.sectors| == 13 && r.no == no
        ensures OnDisk(Synced(disk, lba, no, r), lba, no) == r
      {
        LowIsKept(disk, lba, no, r);
      }
    } else {
      var disk, r := HighIsLost(no);
    }
  }

  lemma LowIsKept(disk: seq<Sector>, lba: nat, no: nat, r: Record)
    requires lba + TABLE_SECTORS <= |disk| && |r.sectors| == 13 && no < LOW
    ensures OnDisk(Synced(disk, lba, no, r), lba, no) == r
  {
    hide Synced, OnDisk, RecordBytes, Spliced;
    SyncedIsSpliced(disk, lba, no, r);
    SyncedRecords(disk, Synced(disk, lba, no, r), lba, no, r);
  }

  /** A table and a record that inode_sync does not store. */
  lemma HighIsLost(no: nat) returns (disk: seq<Sector>, r: Record)
    requires LOW <= no < COUNT
    ensures TABLE_SECTORS <= |disk| && |r.sectors| == 13 && r.no == no
    ensures OnDisk(Synced(disk, 0, no, r), 0, no) != r
  {
    hide Synced, OnDisk, RecordBytes, Spliced;
    disk := seq(TABLE_SECTORS, _ => ZeroSector());
    var was := OnDisk(disk, 0, no);
    r := Record(no, (was.size + 1) % 0x1_0000_0000, seq(13, _ => 0));
    SyncedIsSpliced(disk, 0, no, r);
    SyncedRecords(disk, Synced(disk, 0, no, r), 0, no % 256, r);
    assert OnDisk(Synced(disk, 0, no, r), 0, no) == was;
  }

  /** The disk after inode_sync. */
  ghost function Synced(disk: seq<Sector>, lba: nat, no: nat, r: Record): (d: seq<Sector>)
    requires lba + TABLE_SECTORS <= |disk| && |r.sectors| == 13
    ensures |d| == |disk|
  {
    var p, s := Locate(lba, no % 256), RecordBytes(r);
    if p.twoSec then
      var b := PatchTwo(Two(disk, p.secLba), p.offSize, s);
      disk[p.secLba := First(b)][p.secLba + 1 := Second(b)]
    else disk[p.secLba := Patch(disk[p.secLba], p.offSize, s)]
  }

  lemma SyncedIsSpliced(disk: seq<Sector>, lba: nat, no: nat, r: Record)
    requires lba + TABLE_SECTORS <= |disk| && |r.sectors| == 13
    ensures Spliced(disk, Synced(disk, lba, no, r), lba, no % 256, RecordBytes(r))
  {
    hide Locate, RecordBytes, Spliced;
    var p, s := Locate(lba, no % 256), RecordBytes(r);
    if p.twoSec {
      SpliceTwo(disk, Synced(disk, lba, no, r), lba, no % 256, s, p, PatchTwo(Two(disk, p.secLba), p.offSize, s));
    } else {
      SpliceOne(disk, Synced(disk, lba, no, r), lba, no % 256, s, p);
    }
  }
}
