/** The copy on disk of a block or inode bitmap: bitmap_sync (src/fs/file.c) after each change, and what
    mounting (src/fs/fs.c) reads back. */
module BitmapSyncs {
  import opened Bytes
  import opened Bitmaps

  function AsByte(b: bv8): Byte {
    b as int
  }

  function AsBv(b: Byte): bv8 {
    b as bv8
  }

  lemma ByteRoundTrip(b: bv8)
    ensures AsBv(AsByte(b)) == b
  {
  }

  /** A sector with 512 bytes of the map. */
  function AsSector(bytes: seq<bv8>): (s: Sector)
    requires |bytes| == SECTOR
    ensures forall k :: 0 <= k < SECTOR ==> s[k] == AsByte(bytes[k])
  {
    seq(SECTOR, k requires 0 <= k < SECTOR => AsByte(bytes[k]))
  }

  /** The k-th sector of the map in memory. */
  function Chunk(bits: seq<bv8>, k: nat): (c: seq<bv8>)
    requires SECTOR * (k + 1) <= |bits|
    ensures |c| == SECTOR
  {
    bits[SECTOR * k..SECTOR * (k + 1)]
  }

  /** The sectors from lba on hold the map. */
  ghost predicate Copied(disk: seq<Sector>, lba: nat, bits: seq<bv8>, sectors: nat) {
    && lba + sectors <= |disk| && SECTOR * sectors <= |bits|
    && forall k :: 0 <= k < sectors ==> disk[lba + k] == AsSector(Chunk(bits, k))
  }

  class SyncedBitmap {
    const btmp: Bitmap
    const disk: array<Sector>
    const lba: nat
    const sectors: nat

    constructor (btmp: Bitmap, disk: array<Sector>, lba: nat, sectors: nat)
      ensures this.btmp == btmp && this.disk == disk && this.lba == lba && this.sectors == sectors
    {
      this.btmp, this.disk, this.lba, this.sectors := btmp, disk, lba, sectors;
    }

    ghost predicate Wired()
      reads btmp.bits
    {
      btmp.Valid() && btmp.len == SECTOR * sectors && lba + sectors <= disk.Length && disk as object != btmp.bits
    }

    ghost predicate InStep()
      reads btmp.bits, disk
    {
      Wired() && Copied(disk[..], lba, btmp.bits[..], sectors)
    }

    /** bitmap_sync: the sector with the bit goes to the disk. */
    method Sync(bitIdx: nat)
      requires Wired() && bitIdx < 8 * btmp.len
      modifies disk
      ensures bitIdx / 4096 < sectors
      ensures disk[..] == old(disk[..])[lba + bitIdx / 4096 := AsSector(Chunk(btmp.bits[..], bitIdx / 4096))]
    {
      var offSec := bitIdx / 4096;
      var offSize := offSec * SECTOR;
      assert btmp.bits[offSize..offSize + SECTOR] == Chunk(btmp.bits[..], offSec);
      disk[lba + offSec] := AsSector(btmp.bits[offSize..offSize + SECTOR]);
    }

    /** bitmap_set, then bitmap_sync of the same bit. */
    method SetAndSync(bitIdx: nat, value: bool)
      requires InStep() && bitIdx < 8 * btmp.len
      modifies btmp.bits, disk
      ensures InStep() && btmp.Contents() == old(btmp.Contents())[bitIdx := value]
      ensures forall a :: 0 <= a < disk.Length && a != lba + bitIdx / 4096 ==> disk[a] == old(disk[a])
    {
      hide Unpack, Chunk, Bitmap.Contents;
      ghost var was, bits := disk[..], btmp.bits[..];
      btmp.Set(bitIdx, value);
      ghost var after := btmp.bits[..];
      OtherChunks(bits, after, bitIdx, sectors);
      Sync(bitIdx);
    }

    /** file_write takes the block of a new indirect table and then the data blocks, but syncs only the
        bits of the data blocks: the copy on disk stays whole iff the table's bit is in a sector that one
        of them is in. */
    method TakeTableAndBlocks(tableIdx: nat, data: seq<nat>)
      requires InStep() && tableIdx < 8 * btmp.len && !btmp.Contents()[tableIdx]
      requires forall i :: 0 <= i < |data| ==> data[i] < 8 * btmp.len
      modifies btmp.bits, disk
      ensures Wired() && btmp.Contents() == AllSet(old(btmp.Contents())[tableIdx := true], data)
      ensures InStep() <==> exists i :: 0 <= i < |data| && data[i] / 4096 == tableIdx / 4096
    {
      hide Unpack, Chunk, AsSector, Copied, Bitmap.Contents, AllSet, Behind, SyncedSector;
      ghost var bits, map0 := btmp.bits[..], btmp.Contents();
      ContentsNow();
      btmp.Set(tableIdx, true);
      ContentsNow();
      ghost var first, map1 := btmp.bits[..], btmp.Contents();
      ByteChanges(map0, bits, first, btmp.len, tableIdx);
      BehindBegins(disk[..], lba, bits, first, sectors, tableIdx);
      ghost var k := tableIdx / 4096;
      var done := 0;
      AllSetNone(map1);
      assert data[..0] == [];
      while done < |data|
        invariant 0 <= done <= |data| && Wired()
        invariant |btmp.bits[..]| == |bits| && btmp.Contents() == AllSet(map1, data[..done])
        invariant Behind(disk[..], lba, btmp.bits[..], sectors, k, bits, first, SyncedSector(data[..done], k))
      {
        ghost var was, before := disk[..], btmp.bits[..];
        btmp.Set(data[done], true);
        Sync(data[done]);
        BehindNext(was, disk[..], lba, before, btmp.bits[..], sectors, k, bits, first, SyncedSector(data[..done], k),
          data[done]);
        OneMore(map1, data, done);
        SyncedMore(data, done, k);
        done := done + 1;
      }
      assert data[..done] == data;
      BehindEnds(disk[..], lba, btmp.bits[..], sectors, tableIdx, bits, first, SyncedSector(data, k));
      SyncedMeans(data, k);
    }

    lemma ContentsNow()
      requires Wired()
      ensures btmp.Contents() == Unpack(btmp.bits[..][..btmp.len])
    {
      assert btmp.bits[..][..btmp.len] == btmp.bits[..btmp.len];
    }
  }

  /** The copy is whole but for sector k, which is as it was before the table's bit until it is synced. */
  ghost predicate Behind(disk: seq<Sector>, lba: nat, now: seq<bv8>, sectors: nat, k: nat, bits: seq<bv8>,
                         first: seq<bv8>, synced: bool) {
    && |now| == |first| == |bits| && SECTOR * sectors <= |bits| && lba + sectors <= |disk| && k < sectors
    && (forall n :: 0 <= n < sectors && n != k ==> disk[lba + n] == AsSector(Chunk(now, n)))
    && if synced then disk[lba + k] == AsSector(Chunk(now, k))
       else disk[lba + k] == AsSector(Chunk(bits, k)) && Chunk(now, k) == Chunk(first, k)
  }

  lemma BehindBegins(disk: seq<Sector>, lba: nat, bits: seq<bv8>, first: seq<bv8>, sectors: nat, bitIdx: nat)
    requires Copied(disk, lba, bits, sectors) && |first| == |bits| && bitIdx / 4096 < sectors
    requires forall j :: 0 <= j < |bits| && j != bitIdx / 8 ==> first[j] == bits[j]
    ensures Behind(disk, lba, first, sectors, bitIdx / 4096, bits, first, SyncedSector([], bitIdx / 4096))
  {
    hide Chunk, AsSector;
    OtherChunks(bits, first, bitIdx, sectors);
  }

  lemma BehindNext(was: seq<Sector>, disk: seq<Sector>, lba: nat, before: seq<bv8>, now: seq<bv8>, sectors: nat, k: nat,
                   bits: seq<bv8>, first: seq<bv8>, synced: bool, b: nat)
    requires Behind(was, lba, before, sectors, k, bits, first, synced) && |now| == |before| && b / 4096 < sectors
    requires forall j :: 0 <= j < |now| && j != b / 8 ==> now[j] == before[j]
    requires disk == was[lba + b / 4096 := AsSector(Chunk(now, b / 4096))]
    ensures Behind(disk, lba, now, sectors, k, bits, first, synced || b / 4096 == k)
  {
    hide Chunk, AsSector;
    OtherChunks(before, now, b, sectors);
  }

  lemma BehindEnds(disk: seq<Sector>, lba: nat, now: seq<bv8>, sectors: nat, bitIdx: nat, bits: seq<bv8>,
                   first: seq<bv8>, synced: bool)
    requires Behind(disk, lba, now, sectors, bitIdx / 4096, bits, first, synced) && bitIdx < 4096 * sectors
    requires first[bitIdx / 8] != bits[bitIdx / 8]
    ensures Copied(disk, lba, now, sectors) <==> synced
  {
    hide Chunk, AsSector;
    ChunksDiffer(bits, first, bitIdx, sectors);
  }

  /** Some of the bits is in sector k of the map. */
  ghost predicate SyncedSector(data: seq<nat>, k: nat) {
    exists i :: 0 <= i < |data| && data[i] / 4096 == k
  }

  lemma SyncedMeans(data: seq<nat>, k: nat)
    ensures SyncedSector(data, k) <==> exists i :: 0 <= i < |data| && data[i] / 4096 == k
  {
  }

  lemma SyncedMore(data: seq<nat>, n: nat, k: nat)
    requires n < |data|
    ensures SyncedSector(data[..n + 1], k) <==> SyncedSector(data[..n], k) || data[n] / 4096 == k
  {
    if SyncedSector(data[..n], k) {
      var i :| 0 <= i < n && data[..n][i] / 4096 == k;
      assert data[..n + 1][i] / 4096 == k;
    }
    assert data[..n + 1][n] == data[n];
  }

  /** The map with these bits set. */
  function AllSet(bits: seq<bool>, data: seq<nat>): (r: seq<bool>)
    requires forall i :: 0 <= i < |data| ==> data[i] < |bits|
    ensures |r| == |bits| && forall x :: 0 <= x < |bits| ==> r[x] == (bits[x] || x in data)
  {
    seq(|bits|, x requires 0 <= x < |bits| => bits[x] || x in data)
  }

  lemma AllSetNone(bits: seq<bool>)
    ensures AllSet(bits, []) == bits
  {
  }

  lemma OneMore(bits: seq<bool>, data: seq<nat>, n: nat)
    requires n < |data| && forall i :: 0 <= i < |data| ==> data[i] < |bits|
    ensures AllSet(bits, data[..n + 1]) == AllSet(bits, data[..n])[data[n] := true]
  {
    assert data[..n + 1] == data[..n] + [data[n]];
  }

  /** The sectors that differ in a bit differ on disk. */
  lemma ChunksDiffer(bits: seq<bv8>, after: seq<bv8>, bitIdx: nat, sectors: nat)
    requires |after| == |bits| && SECTOR * sectors <= |bits| && bitIdx < 4096 * sectors
    requires after[bitIdx / 8] != bits[bitIdx / 8]
    ensures AsSector(Chunk(after, bitIdx / 4096)) != AsSector(Chunk(bits, bitIdx / 4096))
  {
    hide AsByte, AsBv;
    var k := bitIdx / 4096;
    var j := bitIdx / 8 - SECTOR * k;
    assert Chunk(after, k)[j] == after[bitIdx / 8] && Chunk(bits, k)[j] == bits[bitIdx / 8];
    ByteRoundTrip(after[bitIdx / 8]);
    ByteRoundTrip(bits[bitIdx / 8]);
    assert AsSector(Chunk(after, k))[j] == AsByte(after[bitIdx / 8]);
    assert AsSector(Chunk(bits, k))[j] == AsByte(bits[bitIdx / 8]);
  }

  /** A bit that changes changes its byte. */
  lemma ByteChanges(map0: seq<bool>, bits: seq<bv8>, after: seq<bv8>, len: nat, i: nat)
    requires |after| == |bits| && len <= |bits| && i < 8 * len && map0 == Unpack(bits[..len])
    requires Unpack(after[..len]) == map0[i := true] && !map0[i]
    ensures after[i / 8] != bits[i / 8]
  {
    hide Unpack, ByteBit;
    UnpackAt(after[..len], i);
    UnpackAt(bits[..len], i);
    assert Unpack(after[..len])[i];
  }

  /** One changed byte leaves the other sectors of the map alone. */
  lemma OtherChunks(bits: seq<bv8>, after: seq<bv8>, bitIdx: nat, sectors: nat)
    requires |after| == |bits| && SECTOR * sectors <= |bits|
    requires forall j :: 0 <= j < |bits| && j != bitIdx / 8 ==> after[j] == bits[j]
    ensures forall k :: 0 <= k < sectors && k != bitIdx / 4096 ==> Chunk(after, k) == Chunk(bits, k)
  {
    forall k | 0 <= k < sectors && k != bitIdx / 4096 ensures Chunk(after, k) == Chunk(bits, k) {
      forall j | 0 <= j < SECTOR ensures Chunk(after, k)[j] == Chunk(bits, k)[j] {
        assert SECTOR * k + j != bitIdx / 8;
      }
    }
  }

  /** The bytes that mounting reads from the sectors. */
  function Mounted(disk: seq<Sector>, lba: nat, sectors: nat): (bits: seq<bv8>)
    requires lba + sectors <= |disk|
    ensures |bits| == SECTOR * sectors
  {
    if sectors == 0 then []
    else Mounted(disk, lba, sectors - 1) + seq(SECTOR, k requires 0 <= k < SECTOR => AsBv(disk[lba + (sectors - 1)][k]))
  }

  /** Mounting reads the map as it was in memory. */
  lemma {:induction false} MountReads(disk: seq<Sector>, lba: nat, bits: seq<bv8>, sectors: nat)
    requires Copied(disk, lba, bits, sectors)
    ensures Mounted(disk, lba, sectors) == bits[..SECTOR * sectors]
  {
    hide AsByte, AsBv, AsSector;
    if sectors > 0 {
      MountReads(disk, lba, bits, sectors - 1);
      SectorReads(disk, lba, bits, sectors, sectors - 1);
      assert bits[..SECTOR * sectors] == bits[..SECTOR * (sectors - 1)] + Chunk(bits, sectors - 1);
    }
  }

  lemma SectorReads(disk: seq<Sector>, lba: nat, bits: seq<bv8>, sectors: nat, n: nat)
    requires Copied(disk, lba, bits, sectors) && n < sectors
    ensures seq(SECTOR, k requires 0 <= k < SECTOR => AsBv(disk[lba + n][k])) == Chunk(bits, n)
  {
    hide AsByte, AsBv, Chunk;
    var c := Chunk(bits, n);
    assert disk[lba + n] == AsSector(c);
    forall k | 0 <= k < SECTOR ensures AsBv(disk[lba + n][k]) == c[k] {
      ByteRoundTrip(c[k]);
    }
  }
}
