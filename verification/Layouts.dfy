/** Where things are on the disk, by the numbers: bits in bytes, bytes in words, the fields of directory entries
    and inode records, and the blocks of a file (src/fs/fs.h, src/fs/dir.h, src/fs/inode.h). */
module Layouts {
  import opened Bytes
  import opened Bitmaps
  import opened Blocks
  import opened Files
  import opened DirTables
  import opened InodeTable

  /** Bit k of a byte is its k-th from below. */
  lemma BitOrder(b: bv8, k: nat)
    requires k < 8
    ensures ByteBit(b, k) <==> (b >> k) & 1 == 1
  {
    assert k == 0 || k == 1 || k == 2 || k == 3 || k == 4 || k == 5 || k == 6 || k == 7;
  }

  /** The lowest byte of a word comes first. */
  lemma WordInBytes(s: seq<Byte>, k: nat)
    requires 4 * k + 4 <= |s|
    ensures WordAt(s, k) ==
              s[4 * k] as int + 256 * (s[4 * k + 1] as int) + 65536 * (s[4 * k + 2] as int)
              + 16777216 * (s[4 * k + 3] as int)
  {
  }

  /** A directory entry: 16 bytes for the name, filled up with zeros, then inode number and type. */
  lemma EntryLayout(name: Name, ino: Word, kind: Word)
    requires |name| <= 16
    ensures var r := MakeRec(name, ino, kind);
            && |r| == 24 && (forall k :: 0 <= k < 16 ==> r[k] == if k < |name| then name[k] else 0)
            && WordAt(r, 4) == ino && WordAt(r, 5) == kind
  {
    var r := MakeRec(name, ino, kind);
    assert r[4 * 4..4 * 4 + 4] == WordBytes(ino) && r[4 * 5..4 * 5 + 4] == WordBytes(kind);
    WordRoundTrip(ino);
    WordRoundTrip(kind);
  }

  /** An inode record: number, size, open count and write_deny, 13 addresses, two list links. In memory only are
      the open count, write_deny and the links; on the disk they are zero. */
  lemma RecordLayout(r: Record)
    requires |r.sectors| == 13
    ensures var s := RecordBytes(r);
            && |s| == 76 && WordAt(s, 0) == r.no && WordAt(s, 1) == r.size && WordAt(s, 2) == 0 && WordAt(s, 3) == 0
            && (forall k :: 0 <= k < 13 ==> WordAt(s, 4 + k) == r.sectors[k])
            && WordAt(s, 17) == 0 && WordAt(s, 18) == 0
  {
    hide EncodeWords, WordAt;
    var ws: seq<Word> := [r.no, r.size, 0, 0] + r.sectors + [0, 0];
    forall k | 0 <= k < 19 ensures WordAt(RecordBytes(r), k) == ws[k] {
      EncodedAt(ws, k);
    }
  }

  /** Data block b of a file: one of the 12 addresses in the inode, or a word of the table that the 13th names. */
  lemma BlockLayout(disk: seq<Sector>, ino: Inode, b: nat)
    requires |ino.sectors| == 13 && b < 140
    ensures b < 12 ==> Slots(disk, ino)[SlotOf(b)] == ino.sectors[b]
    ensures 12 <= b && 0 < ino.sectors[12] < |disk| ==>
              Slots(disk, ino)[SlotOf(b)] == WordAt(disk[ino.sectors[12]], b - 12)
    ensures 12 <= b && ino.sectors[12] == 0 ==> Slots(disk, ino)[SlotOf(b)] == 0
  {
    hide WordAt;
    if b >= 12 {
      assert Slots(disk, ino)[SlotOf(b)] == TableWords(disk, ino.sectors[12])[b - 12];
    }
  }

  /** A file that has been written has size / 512 + 1 data blocks, and the table iff that is more than 12; one that
      never was has none. */
  lemma FileBlocks(fs: Fs, i: nat)
    requires Sizes(fs) && FileOk(fs, i)
    ensures var ino := fs.inodes[i]; var slots := Slots(fs.disk, ino);
            && ino.size < 71680 && (ino.sectors[0] == 0 ==> ino.size == 0)
            && (forall b: nat :: b < 140 ==> (slots[SlotOf(b)] != 0 <==> ino.sectors[0] != 0 && b <= ino.size / 512))
            && (ino.sectors[12] != 0 <==> ino.sectors[0] != 0 && ino.size / 512 >= 12)
  {
    hide TableWords;
    var ino := fs.inodes[i];
    var slots := Slots(fs.disk, ino);
    assert slots[..13][0] == slots[0] && slots[..13][12] == slots[12];
  }

  /** What writing takes: the blocks from size / 512 + 1 on, the table when the file outgrows 12 blocks, and one
      block for a file never written. */
  lemma BlocksTaken(ino: Inode, n: nat)
    requires |ino.sectors| == 13 && ino.size + n < 71680
    ensures ToTake(ino, n) ==
              (if ino.sectors[0] == 0 then 1 else 0) + (ino.size + n) / 512 - ino.size / 512
              + if ino.size / 512 < 12 <= (ino.size + n) / 512 then 1 else 0
  {
  }

  /** The entries read one after the other are the live ones, in the order of their places. */
  lemma ReadingOrder(t: Table, p: nat)
    requires p < |t| && Live(t[p])
    ensures LiveCount(t[..p]) < |LiveList(t)| && LiveList(t)[LiveCount(t[..p])] == t[p]
  {
    hide Live;
    CountPrefix(t, p);
    ListPrefix(t, p + 1);
    assert LiveList(t[..p + 1])[LiveCount(t[..p])] == t[p];
  }
}
