/** Model of file_write and file_read (src/fs/file.c): files of at most 140 blocks, appended to and
    read through a table of block addresses. */
module Files {
  import opened Results
  import opened Bytes
  import opened Bitmaps
  import opened Blocks
  import opened Partitions

  const MAX_BLOCKS: nat := 140
  const MAX_BYTES: nat := 71680
  const WRAP: int := 0x1_0000_0000

  /** An open file: the shared file table entry. fd_pos is a 32-bit counter. */
  class File {
    var pos: nat
    const inode: nat

    constructor (inode: nat)
      ensures pos == 0 && this.inode == inode
    {
      pos, this.inode := 0, inode;
    }
  }

  /** What file_write and file_read return: a number of bytes, or -1. */
  datatype Reply = Count(n: nat) | Refused

  // ---------------------------------------------------------------------------------------
  // What a file is.

  /** Exactly the first n data blocks have an address, and the table exists iff some is in it. */
  ghost predicate FileShape(slots: seq<Word>, n: nat) {
    && |slots| == SLOTS && n <= MAX_BLOCKS
    && (forall b :: 0 <= b < MAX_BLOCKS ==> (slots[SlotOf(b)] != 0 <==> b < n))
    && (slots[DIRECT] != 0 <==> n > DIRECT)
  }

  /** Blocks of a file of the given size, once it has been written. */
  function BlocksFor(size: nat): nat {
    size / SECTOR + 1
  }

  /** A file that was never written has no blocks; a written one has size / 512 + 1 of them. */
  ghost predicate FileOk(fs: Fs, i: nat)
    requires Sizes(fs)
  {
    && i in fs.inodes
    && var slots := Slots(fs.disk, fs.inodes[i]);
       if slots[0] == 0 then fs.inodes[i].size == 0 && FileShape(slots, 0)
       else fs.inodes[i].size < MAX_BYTES && FileShape(slots, BlocksFor(fs.inodes[i].size))
  }

  /** The sector with the b-th data block; the model of a missing one does not matter. */
  function BlockOf(disk: seq<Sector>, slots: seq<Word>, b: nat): Sector
    requires |slots| == SLOTS
  {
    if b < MAX_BLOCKS && slots[SlotOf(b)] < |disk| then disk[slots[SlotOf(b)]] else ZeroSector()
  }

  /** The first size bytes of the blocks. */
  function BytesOf(disk: seq<Sector>, slots: seq<Word>, size: nat): (r: seq<Byte>)
    requires |slots| == SLOTS
    ensures |r| == size
  {
    seq(size, x requires 0 <= x < size => BlockOf(disk, slots, x / SECTOR)[x % SECTOR])
  }

  /** The file as its user sees it. */
  ghost function Contents(fs: Fs, i: nat): seq<Byte>
    requires Sizes(fs) && i in fs.inodes
  {
    BytesOf(fs.disk, Slots(fs.disk, fs.inodes[i]), fs.inodes[i].size)
  }

  // ---------------------------------------------------------------------------------------
  // Taking blocks.

  /** From fs0 to fs, blocks from .. upto - 1 of inode i were taken: the direct ones are in the
      inode, all of them in blocks, and all together with pre are what the bitmap lost. */
  ghost predicate Taking(fs0: Fs, bits0: seq<bool>, pre: seq<Word>, fs: Fs, i: nat, from: nat, upto: nat,
                         all: seq<Word>, blocks: seq<Word>)
  {
    && from <= upto <= MAX_BLOCKS == |all| == |blocks|
    && i in fs0.inodes && |fs0.inodes[i].sectors| == 13 && i in fs.inodes && |fs.inodes[i].sectors| == 13
    && fs == fs0.(bits := fs.bits, inodes := fs0.inodes[i := fs0.inodes[i].(sectors := fs.inodes[i].sectors)])
    && (forall b :: 0 <= b < MAX_BLOCKS && !(from <= b < upto) ==> blocks[b] == all[b])
    && (forall k :: 0 <= k < 13 && from <= k < upto && k < DIRECT ==> fs.inodes[i].sectors[k] == blocks[k])
    && (forall k :: 0 <= k < 13 && !(from <= k < upto && k < DIRECT) ==>
       fs.inodes[i].sectors[k] == fs0.inodes[i].sectors[k])
    && Pending(fs0.start, bits0, fs.bits, pre + blocks[from..upto])
  }

  /** fs with block lba taken as the n-th block of inode i. */
  function Took(fs: Fs, i: nat, n: nat, lba: Word): Fs
    requires i in fs.inodes && |fs.inodes[i].sectors| == 13 && fs.start <= lba < fs.start + |fs.bits|
  {
    var ino := fs.inodes[i];
    fs.(bits := fs.bits[lba - fs.start := true],
        inodes := fs.inodes[i := if n < DIRECT then ino.(sectors := ino.sectors[n := lba]) else ino])
  }

  lemma TakingStep(fs0: Fs, bits0: seq<bool>, pre: seq<Word>, fs: Fs, i: nat, from: nat, n: nat,
                   all: seq<Word>, blocks: seq<Word>, lba: Word)
    requires Taking(fs0, bits0, pre, fs, i, from, n, all, blocks) && n < MAX_BLOCKS
    requires fs.start <= lba < fs.start + |fs.bits| && !fs.bits[lba - fs.start]
    ensures Taking(fs0, bits0, pre, Took(fs, i, n, lba), i, from, n + 1, all, blocks[n := lba])
  {
    hide Pending;
    var took := Took(fs, i, n, lba);
    assert Pending(fs0.start, bits0, took.bits, pre + blocks[n := lba][from..n + 1]) by {
      TakeOne(fs.start, bits0, fs.bits, pre + blocks[from..n], lba - fs.start, lba);
      assert pre + blocks[n := lba][from..n + 1] == pre + blocks[from..n] + [lba];
    }
    assert took.inodes == fs0.inodes[i := fs0.inodes[i].(sectors := took.inodes[i].sectors)];
  }

  /** The loops of file_write that allocate blocks from .. to - 1 of inode i. A direct block goes
      into the inode at once, every block into the table of block addresses. */
  method TakeBlocks(part: Partition, i: nat, from: nat, to: nat, all: seq<Word>, ghost bits0: seq<bool>,
                    ghost pre: seq<Word>)
    returns (r: Outcome<seq<Word>>)
    requires part.Valid() && i in part.inodes && from <= to <= MAX_BLOCKS && |all| == MAX_BLOCKS
    requires forall k :: from <= k < to && k < DIRECT ==> part.inodes[i].sectors[k] == 0
    requires Pending(part.start, bits0, part.Model().bits, pre)
    modifies part, part.blockBitmap.bits
    ensures !r.AssertFailed?
    ensures part.Valid()
    ensures r.Done? ==> Taking(old(part.Model()), bits0, pre, part.Model(), i, from, to, all, r.value)
    ensures r.Exhausted? <==> ClearBits(old(part.Model()).bits) < to - from
  {
    hide Pending, ClearBits;
    ghost var fs0 := part.Model();
    var blocks: seq<Word> := all;
    var blockIdx := from;
    assert pre + blocks[from..from] == pre;
    while blockIdx < to
      invariant from <= blockIdx <= to && part.Valid()
      invariant Taking(fs0, bits0, pre, part.Model(), i, from, blockIdx, all, blocks)
      invariant ClearBits(part.Model().bits) + blockIdx - from == ClearBits(fs0.bits)
    {
      ghost var fs := part.Model();
      var lba :- part.BlockBitmapAlloc();
      if blockIdx < DIRECT {
        if part.inodes[i].sectors[blockIdx] != 0 {
          return AssertFailed;
        }
        part.SetInode(i, part.inodes[i].(sectors := part.inodes[i].sectors[blockIdx := lba]));
      }
      assert part.inodes == Took(fs, i, blockIdx, lba).inodes;
      TakingStep(fs0, bits0, pre, fs, i, from, blockIdx, all, blocks, lba);
      blocks := blocks[blockIdx := lba];
      blockIdx := blockIdx + 1;
    }
    return Done(blocks);
  }

  // ---------------------------------------------------------------------------------------
  // What growing a file from has to will blocks comes to.

  /** slots is held with data blocks has .. will - 1 added from blocks, and the table t if the file
      had none and needs one. */
  ghost predicate Extends(held: seq<Word>, slots: seq<Word>, has: nat, will: nat, blocks: seq<Word>, t: Word) {
    && |held| == SLOTS && |slots| == SLOTS && |blocks| == MAX_BLOCKS && has <= will <= MAX_BLOCKS
    && (forall b :: 0 <= b < MAX_BLOCKS ==>
          slots[SlotOf(b)] == if b < has then held[SlotOf(b)] else if b < will then blocks[b] else 0)
    && slots[DIRECT] == if has <= DIRECT < will then t else held[DIRECT]
  }

  /** The blocks an extension takes: the table, if new, then the data blocks. */
  function Taken(has: nat, will: nat, blocks: seq<Word>, t: Word): seq<Word>
    requires has <= will <= |blocks|
  {
    (if has <= DIRECT < will then [t] else []) + blocks[has..will]
  }

  /** The data block that uses slot k. */
  function BlockAt(k: nat): nat
    requires k != DIRECT
    ensures k == SlotOf(BlockAt(k))
  {
    if k < DIRECT then k else k - 1
  }

  lemma ExtendsReslot(fs: Fs, i: nat, has: nat, will: nat, blocks: seq<Word>, t: Word, slots: seq<Word>,
                      bits: seq<bool>)
    requires OwnInv(fs) && i in fs.inodes
    requires FileShape(Own(fs)[i], has) && Extends(Own(fs)[i], slots, has, will, blocks, t)
    requires Pending(fs.start, fs.bits, bits, Taken(has, will, blocks, t))
    ensures FileShape(slots, will)
    ensures Reslot(Own(fs), fs.start, fs.usable, fs.bits, i, slots, bits)
  {
    hide Extends, FileShape, Taken, Pending, Reslot, SlotOf, Exclusive, BitsMatch;
    ExtendsLengths(Own(fs)[i], slots, has, will, blocks, t);
    var held, taken := Own(fs)[i], Taken(has, will, blocks, t);
    TakenNonZero(fs, has, will, blocks, t, bits);
    ExtendsShape(held, slots, has, will, blocks, t);
    forall k | 0 <= k < SLOTS
      ensures held[k] != 0 ==> slots[k] == held[k]
      ensures held[k] == 0 && slots[k] != 0 ==> slots[k] in taken
    {
      ExtendsSlot(held, slots, has, will, blocks, t, k);
    }
    forall k, l | 0 <= k < l < SLOTS && held[k] == 0 && held[l] == 0 && slots[k] != 0
      ensures slots[k] != slots[l]
    {
      NewSlotsDiffer(fs.start, fs.bits, bits, held, slots, has, will, blocks, t, k, l);
    }
    forall x | x in taken ensures x in slots {
      TakenUsed(held, slots, has, will, blocks, t, x);
    }
    PendingReslot(Own(fs), fs.start, fs.usable, fs.bits, bits, taken, i, slots);
  }

  lemma ExtendsLengths(held: seq<Word>, slots: seq<Word>, has: nat, will: nat, blocks: seq<Word>, t: Word)
    requires Extends(held, slots, has, will, blocks, t)
    ensures |held| == SLOTS && |slots| == SLOTS && has <= will <= |blocks|
  {
  }

  lemma NewSlotsDiffer(start: nat, bits0: seq<bool>, bits: seq<bool>, held: seq<Word>, slots: seq<Word>, has: nat,
                       will: nat,
                       blocks: seq<Word>, t: Word, k: nat, l: nat)
    requires FileShape(held, has) && Extends(held, slots, has, will, blocks, t)
    requires has <= will <= |blocks| && Pending(start, bits0, bits, Taken(has, will, blocks, t))
    requires |held| == SLOTS && |slots| == SLOTS && k < l < SLOTS && held[k] == 0 && held[l] == 0 && slots[k] != 0
    ensures slots[k] != slots[l]
  {
    hide FileShape, Extends, Taken, SlotOf;
    if slots[l] != 0 {
      NewSlot(held, slots, has, will, blocks, t, k);
      NewSlot(held, slots, has, will, blocks, t, l);
      assert PlaceOf(has, will, k) != PlaceOf(has, will, l);
    }
  }

  lemma TakenNonZero(fs: Fs, has: nat, will: nat, blocks: seq<Word>, t: Word, bits: seq<bool>)
    requires fs.start > 0 && has <= will <= |blocks| && Pending(fs.start, fs.bits, bits, Taken(has, will, blocks, t))
    ensures forall b :: has <= b < will ==> blocks[b] != 0
    ensures has <= DIRECT < will ==> t != 0
  {
    hide Taken, Pending;
    var taken := Taken(has, will, blocks, t);
    var p := if has <= DIRECT < will then 1 else 0;
    forall b | has <= b < will ensures blocks[b] != 0 {
      TakenAt(has, will, blocks, t, b);
      PendingTaken(fs.start, fs.bits, bits, taken, p + b - has);
    }
    if p == 1 {
      TakenFirst(has, will, blocks, t);
      PendingTaken(fs.start, fs.bits, bits, taken, 0);
    }
  }

  lemma TakenAt(has: nat, will: nat, blocks: seq<Word>, t: Word, b: nat)
    requires has <= b < will <= |blocks|
    ensures var p := if has <= DIRECT < will then 1 else 0;
            p + b - has < |Taken(has, will, blocks, t)| && Taken(has, will, blocks, t)[p + b - has] == blocks[b]
  {
  }

  lemma TakenFirst(has: nat, will: nat, blocks: seq<Word>, t: Word)
    requires has <= DIRECT < will <= |blocks|
    ensures 0 < |Taken(has, will, blocks, t)| && Taken(has, will, blocks, t)[0] == t
  {
  }

  lemma PendingTaken(start: nat, bits0: seq<bool>, bits: seq<bool>, taken: seq<Word>, k: nat)
    requires start > 0 && Pending(start, bits0, bits, taken) && k < |taken|
    ensures taken[k] != 0
  {
  }

  lemma ExtendsShape(held: seq<Word>, slots: seq<Word>, has: nat, will: nat, blocks: seq<Word>, t: Word)
    requires FileShape(held, has) && Extends(held, slots, has, will, blocks, t)
    requires forall b :: has <= b < will ==> blocks[b] != 0
    requires has <= DIRECT < will ==> t != 0
    ensures FileShape(slots, will)
  {
  }

  lemma ExtendsSlot(held: seq<Word>, slots: seq<Word>, has: nat, will: nat, blocks: seq<Word>, t: Word, k: nat)
    requires FileShape(held, has) && Extends(held, slots, has, will, blocks, t) && k < SLOTS
    ensures held[k] != 0 ==> slots[k] == held[k]
    ensures held[k] == 0 && slots[k] != 0 ==> slots[k] in Taken(has, will, blocks, t)
  {
    if k != DIRECT {
      assert slots[SlotOf(BlockAt(k))] == slots[k] && held[SlotOf(BlockAt(k))] == held[k];
    }
    if held[k] == 0 && slots[k] != 0 {
      NewSlot(held, slots, has, will, blocks, t, k);
    }
  }

  lemma TakenUsed(held: seq<Word>, slots: seq<Word>, has: nat, will: nat, blocks: seq<Word>, t: Word, x: Word)
    requires Extends(held, slots, has, will, blocks, t) && x in Taken(has, will, blocks, t)
    ensures x in slots
  {
    var taken := Taken(has, will, blocks, t);
    var p := if has <= DIRECT < will then 1 else 0;
    var j :| 0 <= j < |taken| && taken[j] == x;
    if j < p {
      assert slots[DIRECT] == x;
    } else {
      var b := has + j - p;
      assert slots[SlotOf(b)] == blocks[b] == x;
    }
  }

  /** Where a new slot's block stands among the taken ones. */
  function PlaceOf(has: nat, will: nat, k: nat): int {
    if k == DIRECT then 0 else (if has <= DIRECT < will then 1 else 0) + BlockAt(k) - has
  }

  lemma NewSlot(held: seq<Word>, slots: seq<Word>, has: nat, will: nat, blocks: seq<Word>, t: Word, k: nat)
    requires FileShape(held, has) && Extends(held, slots, has, will, blocks, t)
    requires k < SLOTS && held[k] == 0 && slots[k] != 0
    ensures k == DIRECT ==> has <= DIRECT < will
    ensures k != DIRECT ==> has <= BlockAt(k) < will
    ensures 0 <= PlaceOf(has, will, k) < |Taken(has, will, blocks, t)|
    ensures Taken(has, will, blocks, t)[PlaceOf(has, will, k)] == slots[k]
  {
    if k != DIRECT {
      assert slots[SlotOf(BlockAt(k))] == slots[k] && held[SlotOf(BlockAt(k))] == held[k];
    }
  }

  /** After a change of one inode and of sectors that are its own: the new owner map. */
  lemma OwnAfter(fs: Fs, fs': Fs, i: nat)
    requires OwnInv(fs) && fs'.start == fs.start && fs'.usable == fs.usable && |fs'.bits| == |fs.bits|
    requires i in fs'.inodes && fs'.inodes == fs.inodes[i := fs'.inodes[i]] && |fs'.inodes[i].sectors| == 13
             && WritesOwn(fs, fs'.disk, i)
    requires Reslot(Own(fs), fs.start, fs.usable, fs.bits, i, Slots(fs'.disk, fs'.inodes[i]), fs'.bits)
    ensures OwnInv(fs') && Own(fs') == Own(fs)[i := Slots(fs'.disk, fs'.inodes[i])]
  {
    hide Exclusive, BitsMatch, Reslot, Slots, WritesOwn;
    var slots := Slots(fs'.disk, fs'.inodes[i]);
    SameLength(fs, fs'.disk, i);
    ReslotExclusive(Own(fs), fs.start, fs.usable, fs.bits, i, slots, fs'.bits);
    ReslotBits(Own(fs), fs.start, fs.usable, fs.bits, i, slots, fs'.bits);
    forall j | j in fs'.inodes ensures |fs'.inodes[j].sectors| == 13 {
    }
    forall j | j in fs'.inodes ensures Own(fs')[j] == Own(fs)[i := slots][j] {
      if j != i {
        OthersKeep(fs, fs'.disk, i, j);
      }
    }
    assert Own(fs') == Own(fs)[i := slots];
  }

  /** Inode i grew from has to will blocks; nothing else changed but its own table sector. */
  ghost predicate Grown(fs: Fs, fs': Fs, i: nat, has: nat, will: nat, all: seq<Word>)
    requires OwnInv(fs)
  {
    && i in fs.inodes && fs'.start == fs.start && fs'.usable == fs.usable && OwnInv(fs')
    && i in fs'.inodes && fs'.inodes == fs.inodes[i := fs.inodes[i].(sectors := fs'.inodes[i].sectors)]
    && WritesOwn(fs, fs'.disk, i) && |all| == MAX_BLOCKS
    && 0 < has <= will <= MAX_BLOCKS
    && var held, slots := Own(fs)[i], Own(fs')[i];
       && |held| == SLOTS && FileShape(slots, will)
       && (forall b :: 0 <= b < has ==> slots[SlotOf(b)] == held[SlotOf(b)])
       && (forall b :: 0 <= b < has ==> BlockOf(fs'.disk, slots, b) == BlockOf(fs.disk, held, b))
       && (forall b :: has - 1 <= b < will ==> all[b] == slots[SlotOf(b)])
  }

  /** A table sector that inode i already has, or that was free, may be written. */
  lemma TableIsOwn(fs: Fs, i: nat, t: Word, sector: Sector)
    requires OwnInv(fs) && i in fs.inodes && fs.start <= t < fs.start + |fs.bits| && t < |fs.disk|
    requires Own(fs)[i][DIRECT] == t || !fs.bits[t - fs.start]
    ensures WritesOwn(fs, fs.disk[t := sector], i)
    ensures forall k :: 0 <= k < SLOTS && k != DIRECT ==> Own(fs)[i][k] != t
  {
    hide Slots;
    var own := Own(fs);
    forall j, k | j in fs.inodes && 0 <= k < |own[j]| && own[j][k] == t ensures j == i && k == DIRECT {
      assert t in own[j];
      assert Reaches(own, t);
      assert fs.bits[t - fs.start];
    }
  }

  lemma TableWritten(disk: seq<Sector>, t: Word, ws: seq<Word>)
    requires 0 < t < |disk| && |ws| == WORDS
    ensures |EncodeWords(ws)| == SECTOR && TableWords(disk[t := EncodeWords(ws)], t) == ws
  {
    WordsRoundTrip(ws);
  }

  lemma GrowEnd(fs: Fs, fs': Fs, i: nat, has: nat, will: nat, blocks: seq<Word>, t: Word)
    requires OwnInv(fs) && FileOk(fs, i) && 0 < has && has == BlocksFor(fs.inodes[i].size) && Own(fs)[i][0] != 0
    requires i in fs'.inodes && |fs'.inodes[i].sectors| == 13
    requires fs' ==
             fs.(disk := fs'.disk, bits := fs'.bits,
               inodes := fs.inodes[i := fs.inodes[i].(sectors := fs'.inodes[i].sectors)])
    requires Extends(Own(fs)[i], Slots(fs'.disk, fs'.inodes[i]), has, will, blocks, t)
    requires Pending(fs.start, fs.bits, fs'.bits, Taken(has, will, blocks, t))
    requires WritesOwn(fs, fs'.disk, i) && blocks[has - 1] == Own(fs)[i][SlotOf(has - 1)]
    requires forall b :: 0 <= b < has && Own(fs)[i][SlotOf(b)] < |fs.disk| ==>
               fs'.disk[Own(fs)[i][SlotOf(b)]] == fs.disk[Own(fs)[i][SlotOf(b)]]
    ensures Grown(fs, fs', i, has, will, blocks)
  {
    hide Exclusive, BitsMatch, Reslot, Pending, WritesOwn, Slots, Taken;
    var held, slots := Own(fs)[i], Slots(fs'.disk, fs'.inodes[i]);
    ExtendsReslot(fs, i, has, will, blocks, t, slots, fs'.bits);
    PendingLength(fs.start, fs.bits, fs'.bits, Taken(has, will, blocks, t));
    OwnAfter(fs, fs', i);
    SameLength(fs, fs'.disk, i);
    GrownBlocks(held, slots, fs.disk, fs'.disk, has, will, blocks, t);
    hide Extends, FileShape, BlockOf, Own;
  }

  lemma GrownBlocks(held: seq<Word>, slots: seq<Word>, disk: seq<Sector>, disk': seq<Sector>,
                    has: nat, will: nat, blocks: seq<Word>, t: Word)
    requires FileShape(held, has) && Extends(held, slots, has, will, blocks, t) && 0 < has && |disk'| == |disk|
    requires blocks[has - 1] == held[SlotOf(has - 1)]
    requires forall b :: 0 <= b < has && held[SlotOf(b)] < |disk| ==> disk'[held[SlotOf(b)]] == disk[held[SlotOf(b)]]
    ensures forall b :: 0 <= b < has ==> slots[SlotOf(b)] == held[SlotOf(b)]
    ensures forall b :: 0 <= b < has ==> BlockOf(disk', slots, b) == BlockOf(disk, held, b)
    ensures forall b :: has - 1 <= b < will ==> blocks[b] == slots[SlotOf(b)]
  {
  }

  lemma PendingLength(start: nat, bits0: seq<bool>, bits: seq<bool>, taken: seq<Word>)
    requires Pending(start, bits0, bits, taken)
    ensures |bits| == |bits0|
  {
  }

  lemma SameLength(fs: Fs, disk: seq<Sector>, i: nat)
    requires Sizes(fs) && WritesOwn(fs, disk, i)
    ensures |disk| == |fs.disk|
  {
  }

  // ---------------------------------------------------------------------------------------
  // The three ways file_write gets blocks.

  lemma StartPositive(fs: Fs)
    requires Sizes(fs)
    ensures fs.start > 0 && |fs.disk| > 0
  {
  }

  lemma HeldSectors(fs: Fs, i: nat)
    requires OwnInv(fs) && i in fs.inodes
    ensures i in Own(fs) && |Own(fs)[i]| == SLOTS && |fs.inodes[i].sectors| == 13
    ensures forall k :: 0 <= k < 13 ==> Own(fs)[i][k] == fs.inodes[i].sectors[k]
    ensures Own(fs)[i][13..] == TableWords(fs.disk, fs.inodes[i].sectors[12])
  {
    hide Exclusive, BitsMatch, TableWords;
    var s := Own(fs)[i];
    forall k | 0 <= k < 13 ensures s[k] == fs.inodes[i].sectors[k] {
      assert s[..13][k] == s[k];
    }
  }

  lemma TableThere(fs: Fs, i: nat)
    requires OwnInv(fs) && FileOk(fs, i) && DIRECT < BlocksFor(fs.inodes[i].size)
    ensures i in Own(fs) && |Own(fs)[i]| == SLOTS && Own(fs)[i][DIRECT] != 0
  {
    hide Exclusive, BitsMatch;
  }

  /** What a file that has been written holds. */
  lemma HeldFacts(fs: Fs, i: nat)
    requires OwnInv(fs) && FileOk(fs, i) && Own(fs)[i][0] != 0
    ensures i in fs.inodes && i in Own(fs) && |Own(fs)[i]| == SLOTS && |fs.inodes[i].sectors| == 13
    ensures forall k :: 0 <= k < 13 ==> Own(fs)[i][k] == fs.inodes[i].sectors[k]
    ensures Own(fs)[i][13..] == TableWords(fs.disk, fs.inodes[i].sectors[12])
    ensures FileShape(Own(fs)[i], BlocksFor(fs.inodes[i].size))
  {
    hide Exclusive, BitsMatch, FileShape, BlocksFor, TableWords;
    HeldSectors(fs, i);
  }

  /** How many blocks growing from has to will takes: the table, if it is new, and the data blocks. */
  function BlocksToTake(has: nat, will: nat): nat
    requires has <= will
  {
    (if has <= DIRECT < will then 1 else 0) + will - has
  }

  /** The new blocks are all direct. */
  method GrowDirect(part: Partition, i: nat, has: nat, will: nat) returns (r: Outcome<seq<Word>>)
    requires part.Valid() && OwnInv(part.Model()) && FileOk(part.Model(), i) && Own(part.Model())[i][0] != 0
    requires has == BlocksFor(part.inodes[i].size) && has < will <= DIRECT
    modifies part, part.blockBitmap.bits
    ensures !r.AssertFailed? && part.Valid()
    ensures r.Done? ==> Grown(old(part.Model()), part.Model(), i, has, will, r.value)
    ensures r.Exhausted? <==> ClearBits(old(part.Model()).bits) < BlocksToTake(has, will)
  {
    hide ClearBits, OwnInv, FileOk, Own, Sizes, Pending, Taking, Grown, Bitmap.Contents, Bitmap.Valid;
    ghost var fs := part.Model();
    HeldFacts(fs, i);
    ghost var held := Own(fs)[i];
    var all: seq<Word> := seq(MAX_BLOCKS, _ => 0);
    var last := has - 1;
    assert held[SlotOf(last)] != 0;
    all := all[last := part.inodes[i].sectors[last]];
    NothingPending(fs.start, fs.bits);
    forall k | has <= k < will ensures part.inodes[i].sectors[k] == 0 {
      assert held[SlotOf(k)] == 0;
    }
    var blocks :- TakeBlocks(part, i, has, will, all, fs.bits, []);
    GrowDirectEnd(fs, part.Model(), i, has, will, all, blocks);
    return Done(blocks);
  }

  lemma NothingPending(start: nat, bits: seq<bool>)
    ensures Pending(start, bits, bits, [])
  {
  }

  lemma GrowDirectEnd(fs: Fs, fs': Fs, i: nat, has: nat, will: nat, all: seq<Word>, blocks: seq<Word>)
    requires OwnInv(fs) && FileOk(fs, i) && Own(fs)[i][0] != 0
    requires has == BlocksFor(fs.inodes[i].size) && has < will <= DIRECT
    requires Taking(fs, fs.bits, [], fs', i, has, will, all, blocks) && all[has - 1] == fs.inodes[i].sectors[has - 1]
    ensures Grown(fs, fs', i, has, will, blocks)
  {
    hide Exclusive, BitsMatch, Reslot, Pending;
    var held, slots := Own(fs)[i], Slots(fs'.disk, fs'.inodes[i]);
    assert forall k :: 0 <= k < 13 ==> held[k] == fs.inodes[i].sectors[k] && slots[k] == fs'.inodes[i].sectors[k];
    assert held[DIRECT] == 0 && slots[DIRECT] == 0;
    forall b | 0 <= b < MAX_BLOCKS
      ensures slots[SlotOf(b)] == if b < has then held[SlotOf(b)] else if b < will then blocks[b] else 0
    {
      assert b >= DIRECT ==> slots[SlotOf(b)] == 0;
      assert held[SlotOf(b)] != 0 <==> b < has;
    }
    assert Taken(has, will, blocks, 0) == [] + blocks[has..will];
    GrowEnd(fs, fs', i, has, will, blocks, 0);
  }

  /** A disk write of blocks[12..] to the table sector, after taking blocks has .. will - 1. */
  lemma GrowTableEnd(fs: Fs, fs1: Fs, fs2: Fs, i: nat, has: nat, will: nat, all: seq<Word>, blocks: seq<Word>,
                     t: Word, pre: seq<Word>)
    requires OwnInv(fs) && FileOk(fs, i) && Own(fs)[i][0] != 0
    requires has == BlocksFor(fs.inodes[i].size) && DIRECT < will && has < will
    requires fs.start <= t < fs.start + |fs.bits| && t < |fs.disk|
    requires Own(fs)[i][DIRECT] == t || (Own(fs)[i][DIRECT] == 0 && !fs.bits[t - fs.start])
    requires Own(fs)[i][DIRECT] == t <==> has > DIRECT
    requires fs1 ==
             fs.(bits := fs1.bits, inodes := fs.inodes[i := fs.inodes[i].(sectors := fs.inodes[i].sectors[12 := t])])
    requires pre == if has <= DIRECT then [t] else []
    requires Taking(fs1, fs.bits, pre, fs2, i, has, will, all, blocks)
    requires forall b :: DIRECT <= b < MAX_BLOCKS ==> all[b] == Own(fs)[i][SlotOf(b)]
    requires all[has - 1] == Own(fs)[i][SlotOf(has - 1)]
    ensures |EncodeWords(blocks[DIRECT..])| == SECTOR
    ensures Grown(fs, fs2.(disk := fs2.disk[t := EncodeWords(blocks[DIRECT..])]), i, has, will, blocks)
  {
    hide Exclusive, BitsMatch, Reslot, Pending, WritesOwn, EncodeWords, DecodeWords, Extends, Slots;
    var ws := blocks[DIRECT..];
    var fs3 := fs2.(disk := fs2.disk[t := EncodeWords(ws)]);
    var held, slots := Own(fs)[i], Slots(fs3.disk, fs3.inodes[i]);
    TableIsOwn(fs, i, t, EncodeWords(ws));
    assert fs1.inodes[i].sectors == held[..13][12 := t];
    assert slots == fs3.inodes[i].sectors + ws by {
      TableSlots(fs.disk, fs3.inodes[i], t, ws);
    }
    TableExtends(held, slots, fs1.inodes[i].sectors, fs3.inodes[i].sectors, has, will, all, blocks, t);
    GrowEnd(fs, fs3, i, has, will, blocks, t);
  }

  lemma TableSlots(disk: seq<Sector>, ino: Inode, t: Word, ws: seq<Word>)
    requires 0 < t < |disk| && |ws| == WORDS && |ino.sectors| == 13 && ino.sectors[12] == t
    ensures |EncodeWords(ws)| == SECTOR && Slots(disk[t := EncodeWords(ws)], ino) == ino.sectors + ws
  {
    TableWritten(disk, t, ws);
  }

  lemma TableExtends(held: seq<Word>, slots: seq<Word>, sectors1: seq<Word>, sectors: seq<Word>,
                     has: nat, will: nat, all: seq<Word>, blocks: seq<Word>, t: Word)
    requires FileShape(held, has) && 0 < has < will <= MAX_BLOCKS && DIRECT < will && |slots| == SLOTS
    requires |sectors1| == 13 && |sectors| == 13 && |all| == MAX_BLOCKS && |blocks| == MAX_BLOCKS
    requires held[..13][12 := t] == sectors1 && (held[DIRECT] == t <==> has > DIRECT)
    requires slots == sectors + blocks[DIRECT..]
    requires forall b :: 0 <= b < MAX_BLOCKS && !(has <= b < will) ==> blocks[b] == all[b]
    requires forall k :: 0 <= k < 13 && has <= k < will && k < DIRECT ==> sectors[k] == blocks[k]
    requires forall k :: 0 <= k < 13 && !(has <= k < will && k < DIRECT) ==> sectors[k] == sectors1[k]
    requires forall b :: DIRECT <= b < MAX_BLOCKS ==> all[b] == held[SlotOf(b)]
    ensures Extends(held, slots, has, will, blocks, t)
  {
    forall b | 0 <= b < MAX_BLOCKS
      ensures slots[SlotOf(b)] == if b < has then held[SlotOf(b)] else if b < will then blocks[b] else 0
    {
      assert held[SlotOf(b)] != 0 <==> b < has;
      if b < DIRECT {
        assert slots[b] == sectors[b];
        assert sectors1[b] == held[b];
      } else {
        assert slots[SlotOf(b)] == blocks[b];
      }
    }
    assert slots[DIRECT] == sectors[12] == t;
  }

  /** The file has direct blocks only and will need the indirect table. */
  method GrowAcross(part: Partition, i: nat, has: nat, will: nat) returns (r: Outcome<seq<Word>>)
    requires part.Valid() && OwnInv(part.Model()) && FileOk(part.Model(), i) && Own(part.Model())[i][0] != 0
    requires has == BlocksFor(part.inodes[i].size) && has <= DIRECT < will <= MAX_BLOCKS
    modifies part, part.blockBitmap.bits, part.disk
    ensures !r.AssertFailed? && part.Valid()
    ensures r.Done? ==> Grown(old(part.Model()), part.Model(), i, has, will, r.value)
    ensures r.Exhausted? <==> ClearBits(old(part.Model()).bits) < BlocksToTake(has, will)
  {
    hide ClearBits, OwnInv, FileOk, Own, Sizes, Pending, EncodeWords, Taking, Grown, DecodeWords, Bitmap.Contents,
         Bitmap.Valid;
    ghost var fs := part.Model();
    HeldFacts(fs, i);
    ghost var held := Own(fs)[i];
    var all: seq<Word> := seq(MAX_BLOCKS, _ => 0);
    var last := has - 1;
    all := all[last := part.inodes[i].sectors[last]];
    var t :- part.BlockBitmapAlloc();
    if part.inodes[i].sectors[12] != 0 {
      return AssertFailed;
    }
    part.SetInode(i, part.inodes[i].(sectors := part.inodes[i].sectors[12 := t]));
    ghost var fs1 := part.Model();
    FirstPending(fs, t);
    forall k | has <= k < will && k < DIRECT ensures part.inodes[i].sectors[k] == 0 {
      assert held[SlotOf(k)] == 0;
    }
    var blocks :- TakeBlocks(part, i, has, will, all, fs.bits, [t]);
    forall b | DIRECT <= b < MAX_BLOCKS ensures all[b] == held[SlotOf(b)] {
    }
    FreeBlockIsUsable(fs, t);
    StartPositive(fs);
    TakingLengths(fs1, fs.bits, [t], part.Model(), i, has, will, all, blocks);
    GrowTableEnd(fs, fs1, part.Model(), i, has, will, all, blocks, t, [t]);
    part.IdeWrite(t, EncodeWords(blocks[DIRECT..]));
    return Done(blocks);
  }

  lemma FirstPending(fs: Fs, t: Word)
    requires fs.start <= t < fs.start + |fs.bits| && !fs.bits[t - fs.start]
    ensures Pending(fs.start, fs.bits, fs.bits[t - fs.start := true], [t])
  {
  }

  lemma FreeBlockIsUsable(fs: Fs, t: Word)
    requires OwnInv(fs) && fs.start <= t < fs.start + |fs.bits| && !fs.bits[t - fs.start]
    ensures t < fs.start + fs.usable <= |fs.disk|
  {
  }

  lemma TakingLengths(fs0: Fs, bits0: seq<bool>, pre: seq<Word>, fs: Fs, i: nat, from: nat, upto: nat,
                      all: seq<Word>, blocks: seq<Word>)
    requires Taking(fs0, bits0, pre, fs, i, from, upto, all, blocks)
    ensures |blocks| == MAX_BLOCKS && fs.disk == fs0.disk
  {
  }

  /** The file already uses the indirect table. */
  method GrowIndirect(part: Partition, i: nat, has: nat, will: nat) returns (r: Outcome<seq<Word>>)
    requires part.Valid() && OwnInv(part.Model()) && FileOk(part.Model(), i) && Own(part.Model())[i][0] != 0
    requires has == BlocksFor(part.inodes[i].size) && DIRECT < has < will <= MAX_BLOCKS
    modifies part, part.blockBitmap.bits, part.disk
    ensures !r.AssertFailed? && part.Valid()
    ensures r.Done? ==> Grown(old(part.Model()), part.Model(), i, has, will, r.value)
    ensures r.Exhausted? <==> ClearBits(old(part.Model()).bits) < BlocksToTake(has, will)
  {
    hide ClearBits, OwnInv, FileOk, Sizes, Pending, EncodeWords, Taking, Grown, DecodeWords, TableWords,
         Bitmap.Contents, Bitmap.Valid;
    ghost var fs := part.Model();
    HeldFacts(fs, i);
    ghost var held := Own(fs)[i];
    assert held[DIRECT] != 0;
    HeldIsUsable(fs, i, DIRECT);
    var t := part.inodes[i].sectors[12];
    if t == 0 {
      return AssertFailed;
    }
    var all := ReadTable(part, t);
    NothingPending(fs.start, fs.bits);
    var blocks :- TakeBlocks(part, i, has, will, all, fs.bits, []);
    TakingLengths(fs, fs.bits, [], part.Model(), i, has, will, all, blocks);
    assert fs.inodes[i].sectors[12 := t] == fs.inodes[i].sectors;
    assert fs == fs.(inodes := fs.inodes[i := fs.inodes[i].(sectors := fs.inodes[i].sectors[12 := t])]);
    GrowTableEnd(fs, fs, part.Model(), i, has, will, all, blocks, t, []);
    part.IdeWrite(t, EncodeWords(blocks[DIRECT..]));
    return Done(blocks);
  }

  lemma HeldIsUsable(fs: Fs, i: nat, k: nat)
    requires OwnInv(fs) && i in fs.inodes && k < SLOTS && Own(fs)[i][k] != 0
    ensures fs.start <= Own(fs)[i][k] < fs.start + fs.usable <= |fs.disk| && Own(fs)[i][k] < fs.start + |fs.bits|
  {
  }

  /** The indirect table is read behind twelve empty entries. */
  method ReadTable(part: Partition, t: Word) returns (all: seq<Word>)
    requires t < part.disk.Length && t != 0
    ensures |all| == MAX_BLOCKS && all[DIRECT..] == TableWords(part.disk[..], t)
    ensures forall b :: 0 <= b < DIRECT ==> all[b] == 0
  {
    var s := part.IdeRead(t);
    all := seq(DIRECT, _ => 0) + DecodeWords(s, WORDS);
    assert all[DIRECT..] == DecodeWords(s, WORDS);
  }

  /** Blocks has - 1 .. will - 1 of the file, by address, after taking those it does not have. */
  method Grow(part: Partition, i: nat, has: nat, will: nat) returns (r: Outcome<seq<Word>>)
    requires part.Valid() && OwnInv(part.Model()) && FileOk(part.Model(), i) && Own(part.Model())[i][0] != 0
    requires has == BlocksFor(part.inodes[i].size) && has <= will <= MAX_BLOCKS
    modifies part, part.blockBitmap.bits, part.disk
    ensures !r.AssertFailed? && part.Valid()
    ensures r.Done? ==> Grown(old(part.Model()), part.Model(), i, has, will, r.value)
    ensures r.Exhausted? <==> ClearBits(old(part.Model()).bits) < BlocksToTake(has, will)
  {
    hide ClearBits, Exclusive, BitsMatch, Reslot, WritesOwn, EncodeWords, DecodeWords, TableWords, Grown;
    ghost var fs := part.Model();
    ghost var held := Own(fs)[i];
    if will == has {
      var all: seq<Word> := seq(MAX_BLOCKS, _ => 0);
      assert forall k :: 0 <= k < 13 ==> held[k] == part.inodes[i].sectors[k];
      var last := has - 1;
      assert held[SlotOf(last)] != 0;
      if has <= DIRECT {
        all := all[last := part.inodes[i].sectors[last]];
      } else {
        HeldIsUsable(fs, i, DIRECT);
        all := ReadTable(part, part.inodes[i].sectors[12]);
      }
      GrowNone(fs, i, has, all);
      return Done(all);
    } else if will <= DIRECT {
      r := GrowDirect(part, i, has, will);
    } else if has <= DIRECT {
      r := GrowAcross(part, i, has, will);
    } else {
      r := GrowIndirect(part, i, has, will);
    }
  }

  lemma OwnSlots(fs: Fs, i: nat)
    requires Sizes(fs) && i in fs.inodes
    ensures Own(fs)[i] == Slots(fs.disk, fs.inodes[i]) && |Own(fs)[i]| == SLOTS
  {
  }

  lemma GrowNone(fs: Fs, i: nat, has: nat, all: seq<Word>)
    requires OwnInv(fs) && FileOk(fs, i) && Own(fs)[i][0] != 0 && has == BlocksFor(fs.inodes[i].size)
    requires |all| == MAX_BLOCKS && all[has - 1] == Own(fs)[i][SlotOf(has - 1)]
    ensures Grown(fs, fs, i, has, has, all)
  {
    hide Exclusive, BitsMatch, Slots, WritesOwn;
    SameDisk(fs, i);
    OwnSlots(fs, i);
    assert fs.inodes == fs.inodes[i := fs.inodes[i].(sectors := fs.inodes[i].sectors)];
  }

  // ---------------------------------------------------------------------------------------
  // The first block.

  /** A file that was never written needs a block even for no bytes. */
  function FirstToTake(ino: Inode): nat
    requires |ino.sectors| == 13
  {
    if ino.sectors[0] == 0 then 1 else 0
  }

  /** A file that was never written gets its first block. */
  method FirstBlock(part: Partition, i: nat) returns (r: Outcome<()>)
    requires part.Valid() && OwnInv(part.Model()) && FileOk(part.Model(), i) && RootDir(part.Model())
    modifies part, part.blockBitmap.bits
    ensures !r.AssertFailed? && part.Valid()
    ensures r.Done? ==> HasFirst(old(part.Model()), part.Model(), i)
    ensures r.Exhausted? <==> ClearBits(old(part.Model()).bits) < FirstToTake(old(part.inodes[i]))
    ensures r.Done? ==>
            ClearBits(part.Model().bits) + FirstToTake(old(part.inodes[i])) == ClearBits(old(part.Model()).bits)
  {
    hide ClearBits, Exclusive, BitsMatch, Reslot, WritesOwn, HasFirst;
    ghost var fs := part.Model();
    assert Own(fs)[i][0] == part.inodes[i].sectors[0];
    RootBit(fs);
    if part.inodes[i].sectors[0] != 0 {
      HadFirst(fs, i);
    } else {
      var lba :- part.BlockBitmapAlloc();
      part.SetInode(i, part.inodes[i].(sectors := part.inodes[i].sectors[0 := lba]));
      if lba - part.start == 0 {
        return AssertFailed;
      }
      FirstBlockEnd(fs, i, lba);
    }
    return Done(());
  }

  /** The first data block belongs to the root directory, inode 0. */
  ghost predicate RootDir(fs: Fs) {
    Sizes(fs) && 0 in fs.inodes && fs.usable > 0 && Own(fs)[0][0] == fs.start
  }

  lemma RootBit(fs: Fs)
    requires OwnInv(fs) && RootDir(fs)
    ensures |fs.bits| > 0 && fs.bits[0]
  {
    assert fs.start in Own(fs)[0];
    assert Reaches(Own(fs), fs.start + 0);
  }

  /** fs' is fs with a first block for file i, if it had none. */
  ghost predicate HasFirst(fs: Fs, fs': Fs, i: nat)
    requires OwnInv(fs) && FileOk(fs, i)
  {
    && OwnInv(fs') && FileOk(fs', i) && Own(fs')[i][0] != 0 && fs'.disk == fs.disk
    && fs'.start == fs.start && fs'.usable == fs.usable
    && fs'.inodes == fs.inodes[i := fs.inodes[i].(sectors := fs'.inodes[i].sectors)]
    && Contents(fs', i) == Contents(fs, i)
  }

  lemma HadFirst(fs: Fs, i: nat)
    requires OwnInv(fs) && FileOk(fs, i) && Own(fs)[i][0] != 0
    ensures HasFirst(fs, fs, i)
  {
    assert fs.inodes == fs.inodes[i := fs.inodes[i].(sectors := fs.inodes[i].sectors)];
  }

  lemma FirstBlockEnd(fs: Fs, i: nat, lba: Word)
    requires OwnInv(fs) && FileOk(fs, i) && Own(fs)[i][0] == 0 && fs.start <= lba < fs.start + |fs.bits|
             && !fs.bits[lba - fs.start]
    ensures HasFirst(fs, fs.(bits := fs.bits[lba - fs.start := true],
              inodes := fs.inodes[i := fs.inodes[i].(sectors := fs.inodes[i].sectors[0 := lba])]), i)
  {
    hide Exclusive, BitsMatch, Reslot, Pending, BytesOf, Slots;
    var fs' := fs.(bits := fs.bits[lba - fs.start := true],
                   inodes := fs.inodes[i := fs.inodes[i].(sectors := fs.inodes[i].sectors[0 := lba])]);
    var held, slots := Own(fs)[i], Slots(fs'.disk, fs'.inodes[i]);
    var blocks: seq<Word> := seq(MAX_BLOCKS, k => if k == 0 then lba else 0);
    SlotsFirst(fs.disk, fs.inodes[i], lba);
    FirstPending(fs, lba);
    assert Taken(0, 1, blocks, 0) == [lba];
    forall b | 0 <= b < MAX_BLOCKS ensures slots[SlotOf(b)] == if b < 1 then blocks[b] else 0 {
      assert held[SlotOf(b)] == 0;
    }
    ExtendsReslot(fs, i, 0, 1, blocks, 0, slots, fs'.bits);
    SameDisk(fs, i);
    OwnAfter(fs, fs', i);
    assert BytesOf(fs'.disk, slots, 0) == BytesOf(fs.disk, held, 0);
  }

  lemma SameDisk(fs: Fs, i: nat)
    requires Sizes(fs)
    ensures WritesOwn(fs, fs.disk, i)
  {
  }

  lemma SlotsFirst(disk: seq<Sector>, ino: Inode, lba: Word)
    requires |ino.sectors| == 13
    ensures Slots(disk, ino)[DIRECT] == ino.sectors[12]
    ensures Slots(disk, ino.(sectors := ino.sectors[0 := lba])) == Slots(disk, ino)[0 := lba]
  {
  }

  // ---------------------------------------------------------------------------------------
  // Writing the bytes.

  /** One sector with count bytes of src put at offset off. */
  function Patched(sector: Sector, off: nat, src: seq<Byte>): Sector
    requires off + |src| <= SECTOR
  {
    sector[..off] + src + sector[off + |src|..]
  }

  /** The slots in use hold different sectors of the disk. */
  ghost predicate Separate(disk: seq<Sector>, slots: seq<Word>) {
    && |slots| == SLOTS
    && (forall k :: 0 <= k < SLOTS ==> slots[k] < |disk|)
    && (forall k, l :: 0 <= k < l < SLOTS && slots[k] != 0 ==> slots[k] != slots[l])
  }

  /** Writing at the end of the bytes appends. The rest of the sector does not matter. */
  lemma AppendChunk(disk: seq<Sector>, slots: seq<Word>, size: nat, sector: Sector, src: seq<Byte>)
    requires Separate(disk, slots) && size / SECTOR < MAX_BLOCKS && slots[SlotOf(size / SECTOR)] != 0
    requires size % SECTOR + |src| <= SECTOR
             && sector[..size % SECTOR] == disk[slots[SlotOf(size / SECTOR)]][..size % SECTOR]
    ensures var lba := slots[SlotOf(size / SECTOR)];
            BytesOf(disk[lba := Patched(sector, size % SECTOR, src)], slots, size + |src|) ==
              BytesOf(disk, slots, size) + src
  {
    var b, off := size / SECTOR, size % SECTOR;
    var lba := slots[SlotOf(b)];
    var patched := Patched(sector, off, src);
    var disk' := disk[lba := patched];
    var r := BytesOf(disk', slots, size + |src|);
    forall x | 0 <= x < size + |src| ensures r[x] == (BytesOf(disk, slots, size) + src)[x] {
      var c := x / SECTOR;
      if c == b {
        var o := x % SECTOR;
        assert x - size == o - off;
        assert r[x] == patched[o];
        if o < off {
          assert patched[o] == sector[..off][o] == disk[lba][..off][o];
        }
      } else {
        assert c < b;
        if c < MAX_BLOCKS {
          assert slots[SlotOf(c)] != lba;
        }
      }
    }
  }

  /** Since fs, done was written behind the first size bytes of file i, whose slots stayed. */
  ghost predicate Written(fs: Fs, fs': Fs, i: nat, slots: seq<Word>, size: nat, done: seq<Byte>)
    requires Sizes(fs)
  {
    && i in fs.inodes && |slots| == SLOTS
    && fs' == fs.(disk := fs'.disk, inodes := fs.inodes[i := fs.inodes[i].(size := size + |done|)])
    && WritesOwn(fs, fs'.disk, i)
    && Slots(fs'.disk, fs.inodes[i]) == slots
    && BytesOf(fs'.disk, slots, size + |done|) == BytesOf(fs.disk, slots, size) + done
  }

  lemma OwnSeparate(fs: Fs, i: nat)
    requires OwnInv(fs) && i in fs.inodes
    ensures Separate(fs.disk, Own(fs)[i])
  {
    forall k | 0 <= k < SLOTS ensures Own(fs)[i][k] < |fs.disk| {
      if Own(fs)[i][k] != 0 {
        HeldIsUsable(fs, i, k);
      }
    }
  }

  /** One more chunk at the end of the file. */
  lemma WrittenStep(fs: Fs, fs': Fs, i: nat, slots: seq<Word>, size: nat, done: seq<Byte>,
                    now: nat, lba: Word, sector: Sector, src: seq<Byte>)
    requires OwnInv(fs) && Written(fs, fs', i, slots, size, done) && i in fs.inodes && Own(fs)[i] == slots
    requires now == size + |done| && now / SECTOR < MAX_BLOCKS && now % SECTOR + |src| <= SECTOR
    requires |slots| == SLOTS && slots[SlotOf(now / SECTOR)] == lba && 0 < lba < |fs'.disk|
    requires sector[..now % SECTOR] == fs'.disk[lba][..now % SECTOR]
    ensures Written(fs, fs'.(disk := fs'.disk[lba := Patched(sector, now % SECTOR, src)],
                             inodes := fs.inodes[i := fs.inodes[i].(size := now + |src|)]),
                    i, slots, size, done + src)
  {
    hide Exclusive, BitsMatch, BytesOf, Slots, WritesOwn;
    var patched := Patched(sector, now % SECTOR, src);
    OwnSeparate(fs, i);
    SameLength(fs, fs'.disk, i);
    AppendChunk(fs'.disk, slots, now, sector, src);
    SlotsAfterData(fs'.disk, fs.inodes[i], slots, lba, patched, SlotOf(now / SECTOR));
    DataIsOwn(fs, fs'.disk, i, SlotOf(now / SECTOR), patched);
    assert |done + src| == |done| + |src|;
    assert BytesOf(fs'.disk[lba := patched], slots, now + |src|) == BytesOf(fs.disk, slots, size) + (done + src);
  }

  lemma SlotsAfterData(disk: seq<Sector>, ino: Inode, slots: seq<Word>, lba: Word, sector: Sector, k: nat)
    requires |ino.sectors| == 13 && Slots(disk, ino) == slots && Separate(disk, slots)
    requires k < SLOTS && k != DIRECT && slots[k] == lba && lba != 0
    ensures Slots(disk[lba := sector], ino) == slots
  {
    assert ino.sectors[12] == slots[DIRECT];
  }

  /** Writing a sector in a slot of inode i touches nobody else. */
  lemma DataIsOwn(fs: Fs, disk: seq<Sector>, i: nat, k: nat, sector: Sector)
    requires OwnInv(fs) && i in fs.inodes && WritesOwn(fs, disk, i) && k < SLOTS && 0 < Own(fs)[i][k] < |disk|
    ensures WritesOwn(fs, disk[Own(fs)[i][k] := sector], i)
  {
    hide Exclusive, BitsMatch, Slots;
    var lba := Own(fs)[i][k];
    forall j | j in fs.inodes && j != i ensures lba !in Own(fs)[j] {
      OneOwner(Own(fs), i, k, j);
    }
  }

  lemma SlotsOfSize(disk: seq<Sector>, ino: Inode, size: nat)
    requires |ino.sectors| == 13
    ensures Slots(disk, ino.(size := size)) == Slots(disk, ino)
  {
  }

  /** Nothing but bytes and size changed: the owners are the same. */
  lemma WrittenOwn(fs: Fs, fs': Fs, i: nat, slots: seq<Word>, size: nat, done: seq<Byte>)
    requires OwnInv(fs) && Written(fs, fs', i, slots, size, done) && Own(fs)[i] == slots
    ensures OwnInv(fs') && Own(fs') == Own(fs)
  {
    hide Exclusive, BitsMatch, BytesOf, Slots, WritesOwn;
    SameLength(fs, fs'.disk, i);
    forall j | j in fs'.inodes ensures |fs'.inodes[j].sectors| == 13 {
    }
    forall j | j in fs'.inodes ensures Own(fs')[j] == Own(fs)[j] {
      if j != i {
        OthersKeep(fs, fs'.disk, i, j);
      } else {
        SlotsOfSize(fs'.disk, fs.inodes[i], size + |done|);
      }
    }
    assert Own(fs') == Own(fs);
  }

  function Wrap(x: int): nat {
    x % WRAP
  }

  lemma WrapAdds(x: int, y: int)
    ensures Wrap(Wrap(x) + y) == Wrap(x + y)
  {
  }

  /** What is left, or what fits into the sector behind offset off. */
  function Chunk(left: nat, off: nat): (c: nat)
    requires off < SECTOR
    ensures c <= left && off + c <= SECTOR && (left > 0 ==> c > 0)
  {
    if left < SECTOR - off then left else SECTOR - off
  }

  lemma ChunkEnds(at: nat, left: nat)
    ensures Chunk(left, at % SECTOR) < left ==> (at + Chunk(left, at % SECTOR)) % SECTOR == 0
  {
  }

  /** One round of the write loop of file_write: the bytes from n on, up to the end of the sector in
      which the file ends now. The first sector is read to keep what is in it; later ones start
      from zeros. */
  method WriteChunk(part: Partition, file: File, all: seq<Word>, buf: seq<Byte>, n: nat, first: bool,
                    ghost fs: Fs, ghost slots: seq<Word>, ghost size: nat, ghost will: nat)
    returns (m: nat)
    requires part.Valid() && OwnInv(fs) && file.inode in fs.inodes && slots == Own(fs)[file.inode] && n < |buf|
    requires Written(fs, part.Model(), file.inode, slots, size, buf[..n])
    requires will == BlocksFor(size + |buf|) && will <= MAX_BLOCKS == |all| && FileShape(slots, will)
    requires forall b :: size / SECTOR <= b < will ==> all[b] == slots[SlotOf(b)]
    requires !first ==> (size + n) % SECTOR == 0
    modifies part`inodes, part.disk
    ensures part.Valid() && n < m <= |buf|
    ensures Written(fs, part.Model(), file.inode, slots, size, buf[..m])
    ensures m < |buf| ==> (size + m) % SECTOR == 0
  {
    hide Exclusive, BitsMatch, Own, Written, BytesOf, Separate, FileShape, Slots, Patched, BlocksFor, SlotOf, Chunk,
         Bitmap.Contents, Bitmap.Valid;
    ghost var now := part.Model();
    var i := file.inode;
    WrittenInodes(fs, now, i, slots, size, buf[..n]);
    var secIdx := part.inodes[i].size / SECTOR;
    SecIdxInRange(size, n, |buf|, will, slots);
    var secLba := all[secIdx];
    SlotOnDisk(fs, now, i, slots, size, buf[..n], secIdx);
    var secOffBytes := part.inodes[i].size % SECTOR;
    var chunkSize := Chunk(|buf| - n, secOffBytes);
    ChunkEnds(size + n, |buf| - n);
    var ioBuf := if first then part.disk[secLba] else ZeroSector();
    var chunk := buf[n..n + chunkSize];
    WrittenStep(fs, now, i, slots, size, buf[..n], size + n, secLba, ioBuf, chunk);
    assert buf[..n] + chunk == buf[..n + chunkSize];
    PutSector(part, i, secLba, Patched(ioBuf, secOffBytes, chunk), part.inodes[i].size + chunkSize);
    assert part.inodes == fs.inodes[i := fs.inodes[i].(size := size + n + chunkSize)];
    return n + chunkSize;
  }

  /** The write loop of file_write. */
  method WriteChunks(part: Partition, file: File, all: seq<Word>, buf: seq<Byte>, ghost will: nat) returns (n: nat)
    requires part.Valid() && OwnInv(part.Model()) && file.inode in part.inodes && |all| == MAX_BLOCKS
    requires will <= MAX_BLOCKS && FileShape(Own(part.Model())[file.inode], will)
    requires will == BlocksFor(part.inodes[file.inode].size + |buf|)
    requires forall b :: part.inodes[file.inode].size / SECTOR <= b < will ==>
               all[b] == Own(part.Model())[file.inode][SlotOf(b)]
    modifies part`inodes, part.disk, file
    ensures part.Valid() && n == |buf|
    ensures Written(old(part.Model()), part.Model(), file.inode, old(Own(part.Model())[file.inode]),
                    old(part.inodes[file.inode].size), buf)
    ensures file.pos == Wrap(old(part.inodes[file.inode].size) - 1 + |buf|)
  {
    hide Exclusive, BitsMatch, Written, BytesOf, FileShape, Slots, Wrap, BlocksFor, SlotOf;
    ghost var fs := part.Model();
    ghost var slots := Own(fs)[file.inode];
    ghost var size := part.inodes[file.inode].size;
    NothingWritten(fs, file.inode);
    file.pos := Wrap(part.inodes[file.inode].size - 1);
    var firstWriteBlock := true;
    n := 0;
    while n < |buf|
      invariant 0 <= n <= |buf| && part.Valid()
      invariant Written(fs, part.Model(), file.inode, slots, size, buf[..n])
      invariant !firstWriteBlock && n < |buf| ==> (size + n) % SECTOR == 0
      invariant file.pos == Wrap(size - 1 + n)
    {
      var m := WriteChunk(part, file, all, buf, n, firstWriteBlock, fs, slots, size, will);
      firstWriteBlock := false;
      WrapAdds(size - 1 + n, m - n);
      file.pos := Wrap(file.pos + (m - n));
      n := m;
    }
    assert buf[..n] == buf;
  }

  /** One sector goes to the disk, and the size follows. */
  method PutSector(part: Partition, i: nat, lba: Word, sector: Sector, size: nat)
    requires part.Valid() && i in part.inodes && lba < part.disk.Length
    modifies part`inodes, part.disk
    ensures part.Valid()
    ensures part.Model() == old(part.Model()).(disk := old(part.Model()).disk[lba := sector], inodes := part.inodes)
    ensures part.inodes == old(part.inodes)[i := old(part.inodes)[i].(size := size)]
  {
    part.IdeWrite(lba, sector);
    part.SetInode(i, part.inodes[i].(size := size));
  }

  lemma NothingWritten(fs: Fs, i: nat)
    requires OwnInv(fs) && i in fs.inodes
    ensures Written(fs, fs, i, Own(fs)[i], fs.inodes[i].size, [])
  {
    assert fs.inodes == fs.inodes[i := fs.inodes[i].(size := fs.inodes[i].size)];
  }

  lemma WrittenInodes(fs: Fs, fs': Fs, i: nat, slots: seq<Word>, size: nat, done: seq<Byte>)
    requires Sizes(fs) && Written(fs, fs', i, slots, size, done)
    ensures i in fs.inodes && fs'.inodes == fs.inodes[i := fs.inodes[i].(size := size + |done|)]
  {
  }

  lemma SecIdxInRange(size: nat, n: nat, count: nat, will: nat, slots: seq<Word>)
    requires n < count && will == BlocksFor(size + count) && will <= MAX_BLOCKS && FileShape(slots, will)
    ensures size / SECTOR <= (size + n) / SECTOR < will && slots[SlotOf((size + n) / SECTOR)] != 0
  {
  }

  lemma SlotOnDisk(fs: Fs, fs': Fs, i: nat, slots: seq<Word>, size: nat, done: seq<Byte>, b: nat)
    requires OwnInv(fs) && i in fs.inodes && slots == Own(fs)[i] && Written(fs, fs', i, slots, size, done)
             && b < MAX_BLOCKS
    ensures |slots| == SLOTS && slots[SlotOf(b)] < |fs'.disk|
  {
    OwnSeparate(fs, i);
    SameLength(fs, fs'.disk, i);
  }

  // ---------------------------------------------------------------------------------------
  // file_write.

  /** Every inode but i has the same record, the same blocks and the same bytes in them. */
  ghost predicate OthersSame(fs: Fs, fs': Fs, i: nat)
    requires Sizes(fs) && Sizes(fs')
  {
    && fs'.start == fs.start && fs'.usable == fs.usable && |fs'.disk| == |fs.disk|
    && (forall j :: j != i ==> (j in fs'.inodes <==> j in fs.inodes))
    && (forall j :: j in fs.inodes && j != i ==> fs'.inodes[j] == fs.inodes[j] && Own(fs')[j] == Own(fs)[j])
    && (forall j, k :: j in fs.inodes && j != i && 0 <= k < SLOTS && 0 < Own(fs)[j][k] < |fs.disk| ==>
          fs'.disk[Own(fs)[j][k]] == fs.disk[Own(fs)[j][k]])
  }

  lemma OthersFromWrites(fs: Fs, fs': Fs, i: nat)
    requires Sizes(fs) && Sizes(fs') && WritesOwn(fs, fs'.disk, i)
    requires fs'.start == fs.start && fs'.usable == fs.usable
    requires i in fs'.inodes && fs'.inodes == fs.inodes[i := fs'.inodes[i]]
    ensures OthersSame(fs, fs', i)
  {
    forall j | j in fs.inodes && j != i
      ensures fs'.inodes[j] == fs.inodes[j] && Own(fs')[j] == Own(fs)[j]
      ensures forall k :: 0 <= k < SLOTS && 0 < Own(fs)[j][k] < |fs.disk| ==>
                fs'.disk[Own(fs)[j][k]] == fs.disk[Own(fs)[j][k]]
    {
      OthersKeep(fs, fs'.disk, i, j);
    }
  }

  lemma OthersThen(fs: Fs, fs1: Fs, fs2: Fs, i: nat)
    requires Sizes(fs) && Sizes(fs1) && Sizes(fs2) && OthersSame(fs, fs1, i) && OthersSame(fs1, fs2, i)
    ensures OthersSame(fs, fs2, i)
  {
    hide Slots;
  }

  /** buf was appended to file i, and nothing else happened to any file. */
  ghost predicate Appended(fs: Fs, fs': Fs, i: nat, buf: seq<Byte>)
    requires OwnInv(fs) && FileOk(fs, i)
  {
    && OwnInv(fs') && RootDir(fs') && FileOk(fs', i) && Own(fs')[i][0] != 0
    && Contents(fs', i) == Contents(fs, i) + buf
    && OthersSame(fs, fs', i)
  }

  /** The bytes do not move when blocks are added. */
  lemma GrownContents(fs: Fs, fs': Fs, i: nat, has: nat, will: nat, all: seq<Word>)
    requires OwnInv(fs) && FileOk(fs, i) && Own(fs)[i][0] != 0 && has == BlocksFor(fs.inodes[i].size)
    requires Grown(fs, fs', i, has, will, all)
    ensures BytesOf(fs'.disk, Own(fs')[i], fs.inodes[i].size) == Contents(fs, i)
    ensures OthersSame(fs, fs', i)
  {
    hide Exclusive, BitsMatch, FileShape, Slots, WritesOwn;
    OthersFromWrites(fs, fs', i);
    var size := fs.inodes[i].size;
    forall x | 0 <= x < size
      ensures BytesOf(fs'.disk, Own(fs')[i], size)[x] == BytesOf(fs.disk, Own(fs)[i], size)[x]
    {
      assert x / SECTOR < has;
    }
  }

  lemma WriteEnd(fs1: Fs, fs2: Fs, fs3: Fs, i: nat, has: nat, will: nat, all: seq<Word>, buf: seq<Byte>)
    requires OwnInv(fs1) && FileOk(fs1, i) && Own(fs1)[i][0] != 0 && has == BlocksFor(fs1.inodes[i].size)
    requires Grown(fs1, fs2, i, has, will, all) && will == BlocksFor(fs1.inodes[i].size + |buf|)
    requires Written(fs2, fs3, i, Own(fs2)[i], fs1.inodes[i].size, buf)
    ensures OwnInv(fs3) && FileOk(fs3, i) && Own(fs3)[i][0] != 0
    ensures Contents(fs3, i) == Contents(fs1, i) + buf
    ensures OthersSame(fs1, fs3, i)
  {
    hide Exclusive, BitsMatch, Slots, WritesOwn, BytesOf;
    GrownContents(fs1, fs2, i, has, will, all);
    WrittenOwn(fs2, fs3, i, Own(fs2)[i], fs1.inodes[i].size, buf);
    OthersFromWrites(fs2, fs3, i);
    OthersThen(fs1, fs2, fs3, i);
    assert SlotOf(0) == 0;
  }

  lemma FirstOthers(fs: Fs, fs': Fs, i: nat)
    requires OwnInv(fs) && FileOk(fs, i) && HasFirst(fs, fs', i)
    ensures OthersSame(fs, fs', i)
  {
    hide Exclusive, BitsMatch, Slots;
    assert WritesOwn(fs, fs'.disk, i);
    OthersFromWrites(fs, fs', i);
  }

  lemma RootStays(fs: Fs, fs': Fs, i: nat)
    requires Sizes(fs) && Sizes(fs') && RootDir(fs) && OthersSame(fs, fs', i) && i != 0
    ensures RootDir(fs')
  {
    hide Slots;
  }

  lemma GrownShape(fs: Fs, fs': Fs, i: nat, has: nat, will: nat, all: seq<Word>)
    requires OwnInv(fs) && Grown(fs, fs', i, has, will, all)
    ensures OwnInv(fs') && i in fs.inodes && i in fs'.inodes && fs'.inodes[i].size == fs.inodes[i].size
    ensures FileShape(Own(fs')[i], will) && |all| == MAX_BLOCKS
    ensures forall b :: has - 1 <= b < will ==> all[b] == Own(fs')[i][SlotOf(b)]
  {
  }

  /** How many blocks appending n bytes takes before they are stored or the ASSERT is reached. */
  function ToTake(ino: Inode, n: nat): nat
    requires |ino.sectors| == 13
  {
    FirstToTake(ino) + if ino.size + n < MAX_BYTES then BlocksToTake(BlocksFor(ino.size), BlocksFor(ino.size + n))
      else 0
  }

  /** file_write. A file that would get longer than 71680 bytes is refused; one that would get
      exactly that long trips the ASSERT behind the check. Otherwise the bytes are appended, and no
      other file changes; it halts for lack of blocks iff fewer are free than the bytes need. */
  method FileWrite(part: Partition, file: File, buf: seq<Byte>) returns (r: Outcome<Reply>)
    requires part.Valid() && OwnInv(part.Model()) && RootDir(part.Model()) && file.inode != 0
    requires FileOk(part.Model(), file.inode)
    requires |buf| < 0xC000_0000      // a buffer lies in the user's address space
    modifies part, part.disk, part.blockBitmap.bits, file
    ensures part.Valid()
    ensures r == Done(Refused) <==> old(part.inodes[file.inode].size) + |buf| > MAX_BYTES
    ensures r == Done(Refused) ==> part.Model() == old(part.Model()) && file.pos == old(file.pos)
    ensures r.AssertFailed? <==>
              && old(part.inodes[file.inode].size) + |buf| == MAX_BYTES
              && ClearBits(old(part.Model()).bits) >= ToTake(old(part.inodes[file.inode]), |buf|)
    ensures r.Exhausted? <==>
              && old(part.inodes[file.inode].size) + |buf| <= MAX_BYTES
              && ClearBits(old(part.Model()).bits) < ToTake(old(part.inodes[file.inode]), |buf|)
    ensures r.Done? && r.value.Count? ==>
              && old(part.inodes[file.inode].size) + |buf| < MAX_BYTES && r.value.n == |buf|
              && Appended(old(part.Model()), part.Model(), file.inode, buf)
              && file.pos == Wrap(|Contents(part.Model(), file.inode)| - 1)
  {
    hide ClearBits, Exclusive, BitsMatch, Slots, WritesOwn, BytesOf, FileShape, HasFirst, Grown, Written, OthersSame,
         RootDir, Bitmap.Contents, Bitmap.Valid, BlocksToTake, FirstToTake, SlotOf;
    var i := file.inode;
    ghost var fs := part.Model();
    if Wrap(part.inodes[i].size + |buf|) > MAX_BYTES {
      return Done(Refused);
    }
    var _ :- FirstBlock(part, i);
    ghost var fs1 := part.Model();
    FirstFacts(fs, fs1, i);
    var has := part.inodes[i].size / SECTOR + 1;
    var will := (part.inodes[i].size + |buf|) / SECTOR + 1;
    if will > MAX_BLOCKS {
      return AssertFailed;
    }
    var all :- Grow(part, i, has, will);
    ghost var fs2 := part.Model();
    GrownShape(fs1, fs2, i, has, will, all);
    var n := WriteChunks(part, file, all, buf, will);
    WriteEnd(fs1, fs2, part.Model(), i, has, will, all, buf);
    OthersThen(fs, fs1, part.Model(), i);
    RootStays(fs, part.Model(), i);
    return Done(Count(n));
  }

  lemma FirstFacts(fs: Fs, fs': Fs, i: nat)
    requires OwnInv(fs) && FileOk(fs, i) && HasFirst(fs, fs', i)
    ensures OwnInv(fs') && FileOk(fs', i) && Own(fs')[i][0] != 0 && fs'.inodes[i].size == fs.inodes[i].size
    ensures Contents(fs', i) == Contents(fs, i) && OthersSame(fs, fs', i)
  {
    FirstOthers(fs, fs', i);
  }

  // ---------------------------------------------------------------------------------------
  // file_read.

  /** Where an open file may stand: inside the file, or at -1, where a write of no bytes to an
      empty file leaves it. */
  ghost predicate PosOk(pos: nat, size: nat) {
    pos <= size || pos == WRAP - 1
  }

  /** How many bytes file_read sets out to read; all sums are 32 bits wide. */
  function ReadSize(pos: nat, count: nat, size: nat): nat {
    if Wrap(pos + count) > size then Wrap(size - pos) else count
  }

  lemma ReadSizeInside(pos: nat, count: nat, size: nat)
    requires pos <= size < MAX_BYTES && count < 0xC000_0000
    ensures ReadSize(pos, count, size) == if count < size - pos then count else size - pos
    ensures Wrap(pos + count) > size <==> count > size - pos
    ensures Wrap(pos + ReadSize(pos, count, size)) == pos + ReadSize(pos, count, size)
  {
  }

  lemma FileBounds(fs: Fs, i: nat)
    requires OwnInv(fs) && FileOk(fs, i)
    ensures fs.inodes[i].size < MAX_BYTES && |Own(fs)[i]| == SLOTS
    ensures |Contents(fs, i)| == fs.inodes[i].size
  {
  }

  /** A block the file reaches into is a sector of the disk. */
  lemma BlockOnDisk(fs: Fs, i: nat, b: nat)
    requires OwnInv(fs) && FileOk(fs, i) && b * SECTOR < fs.inodes[i].size
    ensures b < MAX_BLOCKS && |Own(fs)[i]| == SLOTS && Own(fs)[i][SlotOf(b)] < |fs.disk|
    ensures BlockOf(fs.disk, Own(fs)[i], b) == fs.disk[Own(fs)[i][SlotOf(b)]]
  {
    OwnSeparate(fs, i);
  }

  /** The table of block addresses for reading blocks first .. last. */
  method BlockTable(part: Partition, i: nat, first: nat, last: nat) returns (r: Outcome<seq<Word>>)
    requires part.Valid() && OwnInv(part.Model()) && FileOk(part.Model(), i)
    requires first <= last < MAX_BLOCKS && last < BlocksFor(part.inodes[i].size)
    ensures r.Done? && |r.value| == MAX_BLOCKS
    ensures forall b :: first <= b <= last ==> r.value[b] == Own(part.Model())[i][SlotOf(b)]
  {
    hide OwnInv, FileOk, DecodeWords, Sizes, Bitmap.Contents, Bitmap.Valid;
    FileHere(part.Model(), i);
    HeldSectors(part.Model(), i);
    ghost var held := Own(part.Model())[i];
    var all: seq<Word> := seq(MAX_BLOCKS, _ => 0);
    if last < DIRECT {
      var blockIdx := first;
      while blockIdx <= last
        invariant first <= blockIdx <= last + 1 && |all| == MAX_BLOCKS
        invariant forall b :: first <= b < blockIdx ==> all[b] == held[b]
      {
        all := all[blockIdx := part.inodes[i].sectors[blockIdx]];
        blockIdx := blockIdx + 1;
      }
      return Done(all);
    }
    TableThere(part.Model(), i);
    HeldIsUsable(part.Model(), i, DIRECT);
    if part.inodes[i].sectors[12] == 0 {
      return AssertFailed;
    }
    all := ReadTable(part, part.inodes[i].sectors[12]);
    var blockIdx := first;
    while blockIdx < DIRECT
      invariant first <= blockIdx && |all| == MAX_BLOCKS && all[DIRECT..] == held[13..]
      invariant forall b :: first <= b < blockIdx && b < DIRECT ==> all[b] == held[b]
    {
      all := all[blockIdx := part.inodes[i].sectors[blockIdx]];
      blockIdx := blockIdx + 1;
    }
    forall b | first <= b <= last ensures all[b] == held[SlotOf(b)] {
      if b >= DIRECT {
        assert all[DIRECT..][b - DIRECT] == held[13..][b - DIRECT];
      }
    }
    return Done(all);
  }

  /** The bytes of one sector are a stretch of the file. */
  lemma ChunkOfFile(disk: seq<Sector>, slots: seq<Word>, size: nat, pos: nat, c: nat)
    requires |slots| == SLOTS && pos + c <= size && pos % SECTOR + c <= SECTOR
    ensures BlockOf(disk, slots, pos / SECTOR)[pos % SECTOR..pos % SECTOR + c] ==
            BytesOf(disk, slots, size)[pos..pos + c]
  {
    hide BlockOf;
    var b, o := pos / SECTOR, pos % SECTOR;
    var here, there := BlockOf(disk, slots, b)[o..o + c], BytesOf(disk, slots, size)[pos..pos + c];
    forall k | 0 <= k < c ensures here[k] == there[k] {
      assert (pos + k) / SECTOR == b && (pos + k) % SECTOR == o + k;
      assert there[k] == BlockOf(disk, slots, (pos + k) / SECTOR)[(pos + k) % SECTOR];
    }
  }

  /** file_read. Inside the file it delivers the bytes from the position on, as many as asked for
      or as there are, and moves the position behind them; -1 exactly when bytes are asked for
      and none is left. It halts exactly when a block index reaches 139. */
  method FileRead(part: Partition, file: File, count: nat) returns (r: Outcome<Reply>, buf: seq<Byte>)
    requires part.Valid() && OwnInv(part.Model()) && FileOk(part.Model(), file.inode)
    requires count < 0xC000_0000 && PosOk(file.pos, part.inodes[file.inode].size)
    modifies file
    ensures !r.Exhausted?
    ensures r.AssertFailed? <==>
              var pos, size := old(file.pos), part.inodes[file.inode].size;
              if pos > size then true
              else var n := if count < size - pos then count else size - pos;
                   !(n == 0 && count > 0) && (pos / SECTOR >= 139 || (pos + n) / SECTOR >= 139)
    ensures r == Done(Refused) <==> count > 0 && old(file.pos) == part.inodes[file.inode].size
    ensures r == Done(Refused) ==> buf == [] && file.pos == old(file.pos)
    ensures r.Done? && r.value.Count? ==>
              && old(file.pos) <= |Contents(part.Model(), file.inode)|
              && |buf| == (if count < part.inodes[file.inode].size - old(file.pos) then count
                           else part.inodes[file.inode].size - old(file.pos))
              && |Contents(part.Model(), file.inode)| == part.inodes[file.inode].size
              && buf == Contents(part.Model(), file.inode)[old(file.pos)..old(file.pos) + |buf|]
              && r.value.n == |buf| && file.pos == old(file.pos) + |buf|
  {
    hide Exclusive, BitsMatch, Slots, BytesOf, FileShape, ReadSize, BlockOf, SlotOf, Wrap;
    buf := [];
    var i := file.inode;
    var size := part.inodes[i].size;
    FileBounds(part.Model(), i);
    if file.pos > size {
      BehindFile(file.pos, size, count);
    } else {
      ReadSizeInside(file.pos, count, size);
    }
    var n := ReadSize(file.pos, count, size);
    if Wrap(file.pos + count) > size && n == 0 {
      return Done(Refused), [];
    }
    var first := file.pos / SECTOR;
    var last := Wrap(file.pos + n) / SECTOR;
    if first >= 139 || last >= 139 {
      return AssertFailed, [];
    }
    var table := BlockTable(part, i, first, last);
    if table.AssertFailed? {
      return AssertFailed, [];
    }
    var all := table.value;
    buf := ReadChunks(part, file, all, n);
    return Done(Count(|buf|)), buf;
  }

  lemma BehindFile(pos: nat, size: nat, count: nat)
    requires PosOk(pos, size) && pos > size && size < MAX_BYTES && count < 0xC000_0000
    ensures pos / SECTOR >= 139 && !(Wrap(pos + count) > size && ReadSize(pos, count, size) == 0)
  {
  }

  /** The read loop of file_read: n bytes, sector by sector. */
  method ReadChunks(part: Partition, file: File, all: seq<Word>, n: nat) returns (buf: seq<Byte>)
    requires part.Valid() && OwnInv(part.Model()) && FileOk(part.Model(), file.inode)
    requires file.pos + n <= part.inodes[file.inode].size && |all| == MAX_BLOCKS
    requires forall b :: file.pos / SECTOR <= b <= (file.pos + n) / SECTOR ==>
               all[b] == Own(part.Model())[file.inode][SlotOf(b)]
    modifies file
    ensures file.pos == old(file.pos) + n && |buf| == n
    ensures file.pos <= |Contents(part.Model(), file.inode)|
    ensures buf == Contents(part.Model(), file.inode)[old(file.pos)..file.pos]
  {
    hide OwnInv, FileOk, Own, Sizes, Contents, SlotOf, Bitmap.Contents, Bitmap.Valid;
    var i := file.inode;
    ghost var fs := part.Model();
    FileHere(fs, i);
    ghost var pos0 := file.pos;
    ghost var whole := Contents(fs, i);
    buf := [];
    var done := 0;
    while done < n
      invariant 0 <= done <= n && file.pos == pos0 + done && buf == whole[pos0..pos0 + done]
    {
      var secIdx := file.pos / SECTOR;
      var secOffBytes := file.pos % SECTOR;
      var chunkSize := Chunk(n - done, secOffBytes);
      ChunkHere(fs, i, file.pos, chunkSize);
      var ioBuf := part.IdeRead(all[secIdx]);
      assert ioBuf == fs.disk[Own(fs)[i][SlotOf(secIdx)]];
      assert whole[pos0..pos0 + done] + whole[pos0 + done..pos0 + done + chunkSize] ==
             whole[pos0..pos0 + done + chunkSize];
      buf := buf + ioBuf[secOffBytes..secOffBytes + chunkSize];
      file.pos := file.pos + chunkSize;
      done := done + chunkSize;
    }
  }

  lemma FileHere(fs: Fs, i: nat)
    requires OwnInv(fs) && FileOk(fs, i)
    ensures i in fs.inodes && i in Own(fs) && |Own(fs)[i]| == SLOTS && |Contents(fs, i)| == fs.inodes[i].size
  {
  }

  /** What a sector holds of the file. */
  lemma ChunkHere(fs: Fs, i: nat, pos: nat, c: nat)
    requires OwnInv(fs) && FileOk(fs, i) && pos + c <= fs.inodes[i].size && pos % SECTOR + c <= SECTOR && c > 0
    ensures i in fs.inodes && i in Own(fs) && |Own(fs)[i]| == SLOTS && |Contents(fs, i)| == fs.inodes[i].size
    ensures pos / SECTOR < MAX_BLOCKS
    ensures SlotOf(pos / SECTOR) < SLOTS && Own(fs)[i][SlotOf(pos / SECTOR)] < |fs.disk|
    ensures fs.disk[Own(fs)[i][SlotOf(pos / SECTOR)]][pos % SECTOR..pos % SECTOR + c] == Contents(fs, i)[pos..pos + c]
  {
    hide OwnInv, BytesOf, BlockOf, FileShape, Slots, SlotOf;
    FileHere(fs, i);
    OwnIsSlots(fs, i);
    BlockOnDisk(fs, i, pos / SECTOR);
    SlotInRange(pos / SECTOR);
    ChunkOfFile(fs.disk, Own(fs)[i], fs.inodes[i].size, pos, c);
  }

  lemma SlotInRange(b: nat)
    requires b < MAX_BLOCKS
    ensures SlotOf(b) < SLOTS
  {
  }

  lemma OwnIsSlots(fs: Fs, i: nat)
    requires OwnInv(fs) && i in fs.inodes
    ensures Sizes(fs) && Own(fs)[i] == Slots(fs.disk, fs.inodes[i])
  {
  }

  /** sys_Iseek(fd, offset, SEEK_SET). */
  method SeekSet(part: Partition, file: File, offset: int) returns (r: int)
    requires file.inode in part.inodes
    modifies file
    ensures r == (if 0 <= offset < part.inodes[file.inode].size then offset else -1)
    ensures file.pos == if r >= 0 then r else old(file.pos)
  {
    if offset < 0 || offset > part.inodes[file.inode].size - 1 {
      return -1;
    }
    file.pos := offset;
    return file.pos;
  }

  /** What was appended is what is read back: write, seek to where the file ended, read. */
  method WriteThenRead(part: Partition, file: File, buf: seq<Byte>) returns (r: Outcome<Reply>, got: seq<Byte>)
    requires part.Valid() && OwnInv(part.Model()) && RootDir(part.Model()) && file.inode != 0
    requires FileOk(part.Model(), file.inode) && 0 < |buf| < 0xC000_0000
    modifies part, part.disk, part.blockBitmap.bits, file
    ensures part.Valid()
    ensures r.Done? && r.value.Count? ==>
              && FileOk(part.Model(), file.inode) && got == buf
              && Contents(part.Model(), file.inode) == old(Contents(part.Model(), file.inode)) + buf
  {
    hide OthersSame, BytesOf, Slots, Exclusive, BitsMatch, FileShape;
    got := [];
    FileBounds(part.Model(), file.inode);
    ghost var before := Contents(part.Model(), file.inode);
    var size := part.inodes[file.inode].size;
    r := FileWrite(part, file, buf);
    if !r.Done? || r.value.Refused? {
      return r, got;
    }
    FileBounds(part.Model(), file.inode);
    var pos := SeekSet(part, file, size);
    assert pos == size;
    r, got := FileRead(part, file, |buf|);
    assert (before + buf)[|before|..] == buf;
  }
}
