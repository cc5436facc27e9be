/** The mounted partition: the disk, the block bitmap in memory, the inode table. */
module Partitions {
  import opened Results
  import opened Bitmaps
  import opened Bytes
  import opened Blocks

  class Partition {
    const disk: array<Sector>
    const start: nat           // data_start_lba
    const usable: nat          // data blocks the partition really has
    const blockBitmap: Bitmap
    var inodes: map<nat, Inode>

    constructor (disk: array<Sector>, start: nat, usable: nat, blockBitmap: Bitmap, inodes: map<nat, Inode>)
      ensures this.disk == disk && this.start == start && this.usable == usable
      ensures this.blockBitmap == blockBitmap && this.inodes == inodes
    {
      this.disk, this.start, this.usable, this.blockBitmap, this.inodes := disk, start, usable, blockBitmap, inodes;
    }

    ghost predicate Valid()
      reads this, disk, blockBitmap.bits
    {
      && blockBitmap.Valid() && disk as object != blockBitmap.bits
      && Sizes(Model())
    }

    ghost function Model(): Fs
      requires blockBitmap.Valid()
      reads this, disk, blockBitmap.bits
    {
      Fs(disk[..], start, usable, blockBitmap.Contents(), inodes)
    }

    ghost function Repr(): set<object> {
      {this, disk, blockBitmap.bits}
    }

    /** block_bitmap_alloc: the first free block, now marked; a full map halts in bitmap_scan. */
    method BlockBitmapAlloc() returns (r: Outcome<Word>)
      requires Valid()
      modifies blockBitmap.bits
      ensures Valid()
      ensures match FirstClear(old(Model()).bits)
              case None => r.Exhausted?
              case Some(b) => r == Done(start + b) && Model() == old(Model()).(bits := old(Model()).bits[b := true])
      ensures r.Exhausted? <==> ClearBits(old(Model()).bits) == 0
      ensures r.Done? ==> ClearBits(old(Model()).bits) == ClearBits(Model().bits) + 1
    {
      hide ClearBits;
      ghost var fs := Model();
      FirstClearIff(fs.bits);
      var s := blockBitmap.Scan(1);
      match s {
        case Halts =>
          assert fs.bits == blockBitmap.Contents() && FirstClear(fs.bits).None?;
          return Exhausted;
        case Scanned(b) =>
          FirstIsLeast(fs.bits, b);
          FreeAfterSet(fs.bits, b);
          blockBitmap.Set(b, true);
          return Done(start + b);
      }
    }

    /** Giving one block back. */
    method FreeBlock(lba: Word)
      requires Valid() && start <= lba < start + |Model().bits|
      modifies blockBitmap.bits
      ensures Valid()
      ensures Model() == old(Model()).(bits := old(Model()).bits[lba - start := false])
    {
      blockBitmap.Set(lba - start, false);
    }

    /** ide_read and ide_write of one sector. */
    method IdeRead(lba: nat) returns (s: Sector)
      requires lba < disk.Length
      ensures s == disk[lba]
    {
      s := disk[lba];
    }

    method IdeWrite(lba: nat, s: Sector)
      requires Valid() && lba < disk.Length
      modifies disk
      ensures Valid() && Model() == old(Model()).(disk := old(Model()).disk[lba := s])
    {
      ghost var before := disk[..];
      disk[lba] := s;
      assert disk[..] == before[lba := s];
    }

    method SetInode(i: nat, ino: Inode)
      requires Valid() && |ino.sectors| == 13
      modifies `inodes
      ensures Valid() && Model() == old(Model()).(inodes := old(Model()).inodes[i := ino])
    {
      inodes := inodes[i := ino];
    }
  }
}
