/** Blocks of inodes: which disk blocks an inode reaches, and the rule that a block has one owner.
    A block is a sector. */
module Blocks {
  import opened Bytes

  const DIRECT: nat := 12
  const SLOTS: nat := 141    // 12 direct blocks, the indirect table, its 128 entries

  /** What the file operations use of an inode: i_no is its key in the inode table. */
  datatype Inode = Inode(size: nat, sectors: seq<Word>)

  /** disk: all sectors. start: data_start_lba. bits: block bitmap, bit b for sector start + b; bits
      from usable on stand for no sector and stay set. inodes: the inode table, with the open
      inodes as they are in memory. */
  datatype Fs = Fs(disk: seq<Sector>, start: nat, usable: nat, bits: seq<bool>, inodes: map<nat, Inode>)

  /** The 141 addresses of an inode, 0 for none: direct blocks, table, table entries. */
  function Slots(disk: seq<Sector>, ino: Inode): (r: seq<Word>)
    requires |ino.sectors| == 13
    ensures |r| == SLOTS
    ensures r[..13] == ino.sectors
  {
    ino.sectors + TableWords(disk, ino.sectors[12])
  }

  function TableWords(disk: seq<Sector>, lba: Word): (r: seq<Word>)
    ensures |r| == WORDS
  {
    if lba == 0 || lba >= |disk| then seq(WORDS, _ => 0) else DecodeWords(disk[lba], WORDS)
  }

  /** Slot of the b-th data block. */
  function SlotOf(b: nat): nat {
    if b < DIRECT then b else b + 1
  }

  // ---------------------------------------------------------------------------------------
  // Ownership, stated on the slots of all inodes.

  /** No block is in two slots. */
  ghost predicate Exclusive(own: map<nat, seq<Word>>) {
    forall i, j, k, l ::
      i in own && j in own && 0 <= k < |own[i]| && 0 <= l < |own[j]| && own[i][k] != 0 && own[i][k] == own[j][l]
      ==> i == j && k == l
  }

  ghost predicate Reaches(own: map<nat, seq<Word>>, a: int) {
    a != 0 && exists i :: i in own && a in own[i]
  }

  /** A bit is set iff some slot holds the block, or it stands for no block. */
  ghost predicate BitsMatch(own: map<nat, seq<Word>>, start: nat, usable: nat, bits: seq<bool>) {
    && usable <= |bits|
    && (forall b :: 0 <= b < usable ==> (bits[b] <==> Reaches(own, start + b)))
    && (forall b :: usable <= b < |bits| ==> bits[b])
    && (forall i, k :: i in own && 0 <= k < |own[i]| && own[i][k] != 0 ==> start <= own[i][k] < start + usable)
  }

  ghost function Own(fs: Fs): map<nat, seq<Word>>
    requires Sizes(fs)
  {
    map i | i in fs.inodes :: Slots(fs.disk, fs.inodes[i])
  }

  ghost predicate Sizes(fs: Fs) {
    && fs.start > 0 && fs.start + fs.usable <= |fs.disk| && fs.start + |fs.bits| < 0x1_0000_0000
    && forall i :: i in fs.inodes ==> |fs.inodes[i].sectors| == 13
  }

  /** Every block has one owner, and the bitmap says which blocks have one. */
  ghost predicate OwnInv(fs: Fs) {
    Sizes(fs) && Exclusive(Own(fs)) && BitsMatch(Own(fs), fs.start, fs.usable, fs.bits)
  }

  // ---------------------------------------------------------------------------------------
  // One inode changes.

  /** The new slots of inode i hold old blocks of i or blocks that were free, none twice; the bits
      follow. That is all an operation on one inode has to show. */
  ghost predicate Reslot(own: map<nat, seq<Word>>, start: nat, usable: nat, bits: seq<bool>,
                         i: nat, slots: seq<Word>, bits': seq<bool>)
  {
    && |bits'| == |bits|
    && (forall k, l :: 0 <= k < l < |slots| && slots[k] != 0 ==> slots[k] != slots[l])
    && (forall k :: 0 <= k < |slots| && slots[k] != 0 ==>
          start <= slots[k] < start + |bits| && ((i in own && slots[k] in own[i]) || !bits[slots[k] - start]))
    && (forall b :: 0 <= b < |bits| ==>
          bits'[b] == (if start + b in slots then true
                       else if i in own && start + b in own[i] then false
                       else bits[b]))
  }

  lemma ReslotExclusive(own: map<nat, seq<Word>>, start: nat, usable: nat, bits: seq<bool>,
                        i: nat, slots: seq<Word>, bits': seq<bool>)
    requires Exclusive(own) && BitsMatch(own, start, usable, bits) && start > 0
    requires Reslot(own, start, usable, bits, i, slots, bits')
    ensures Exclusive(own[i := slots])
  {
    var own' := own[i := slots];
    forall j, m, k, l |
      j in own' && m in own' && 0 <= k < |own'[j]| && 0 <= l < |own'[m]| && own'[j][k] != 0 && own'[j][k] == own'[m][l]
      ensures j == m && k == l
    {
      if j == i && m != i {
        NotElsewhere(own, start, usable, bits, i, slots[k], m);
      } else if j != i && m == i {
        NotElsewhere(own, start, usable, bits, i, slots[l], j);
      }
    }
  }

  /** What inode i holds or nobody does, no other inode m holds. */
  lemma NotElsewhere(own: map<nat, seq<Word>>, start: nat, usable: nat, bits: seq<bool>, i: nat, a: Word, m: nat)
    requires Exclusive(own) && BitsMatch(own, start, usable, bits) && a != 0 && m in own && m != i
    requires start <= a < start + |bits| && ((i in own && a in own[i]) || !bits[a - start])
    ensures a !in own[m]
  {
    hide Exclusive, BitsMatch;
    if i in own && a in own[i] {
      var k :| 0 <= k < |own[i]| && own[i][k] == a;
      OneOwner(own, i, k, m);
    } else {
      FreeIsNobodys(own, start, usable, bits, a);
    }
  }

  lemma OneOwner(own: map<nat, seq<Word>>, i: nat, k: nat, m: nat)
    requires Exclusive(own) && i in own && k < |own[i]| && own[i][k] != 0 && m in own && m != i
    ensures own[i][k] !in own[m]
  {
    forall l | 0 <= l < |own[m]| ensures own[m][l] != own[i][k] {
    }
  }

  lemma FreeIsNobodys(own: map<nat, seq<Word>>, start: nat, usable: nat, bits: seq<bool>, a: Word)
    requires BitsMatch(own, start, usable, bits) && a != 0 && start <= a < start + |bits| && !bits[a - start]
    ensures forall m :: m in own ==> a !in own[m]
  {
    assert Reaches(own, start + (a - start)) <==> bits[a - start];
  }

  lemma ReslotBits(own: map<nat, seq<Word>>, start: nat, usable: nat, bits: seq<bool>,
                   i: nat, slots: seq<Word>, bits': seq<bool>)
    requires Exclusive(own) && BitsMatch(own, start, usable, bits) && start > 0
    requires Reslot(own, start, usable, bits, i, slots, bits')
    ensures BitsMatch(own[i := slots], start, usable, bits')
  {
    var own' := own[i := slots];
    forall b | 0 <= b < usable ensures bits'[b] <==> Reaches(own', start + b) {
      var a := start + b;
      if bits'[b] {
        if a in slots {
          assert i in own' && a in own'[i];
        } else {
          assert Reaches(own, a);
          var j :| j in own && a in own[j];
          assert j in own' && a in own'[j];
        }
      }
      if Reaches(own', a) {
        var j :| j in own' && a in own'[j];
        if j != i {
          assert Reaches(own, a);
          NotInTwo(own, i, j, a);
        }
      }
    }
    forall j, k | j in own' && 0 <= k < |own'[j]| && own'[j][k] != 0 ensures start <= own'[j][k] < start + usable {
      if j == i {
        FreeIsUsable(own, start, usable, bits, i, slots, k);
      }
    }
    forall b | usable <= b < |bits'| ensures bits'[b] {
      assert i in own ==> forall k :: 0 <= k < |own[i]| && own[i][k] != 0 ==> own[i][k] < start + usable;
    }
  }

  lemma NotInTwo(own: map<nat, seq<Word>>, i: nat, j: nat, a: int)
    requires Exclusive(own) && j in own && j != i && a in own[j] && a != 0
    ensures i in own ==> a !in own[i]
  {
    var l :| 0 <= l < |own[j]| && own[j][l] == a;
    if i in own {
      OneOwner(own, j, l, i);
    }
  }

  lemma FreeIsUsable(own: map<nat, seq<Word>>, start: nat, usable: nat, bits: seq<bool>, i: nat, slots: seq<Word>,
                     k: nat)
    requires BitsMatch(own, start, usable, bits) && k < |slots| && slots[k] != 0
    requires start <= slots[k] < start + |bits| && ((i in own && slots[k] in own[i]) || !bits[slots[k] - start])
    ensures slots[k] < start + usable
  {
    if i in own && slots[k] in own[i] {
      var n :| 0 <= n < |own[i]| && own[i][n] == slots[k];
    }
  }

  /** An inode goes away with all its blocks. */
  lemma RemoveKeeps(own: map<nat, seq<Word>>, start: nat, usable: nat, bits: seq<bool>, i: nat, bits': seq<bool>)
    requires Exclusive(own) && BitsMatch(own, start, usable, bits) && start > 0 && i in own && |bits'| == |bits|
    requires forall b :: 0 <= b < |bits| ==> bits'[b] == (bits[b] && start + b !in own[i])
    ensures Exclusive(own - {i}) && BitsMatch(own - {i}, start, usable, bits')
  {
    var hollow := own[i := []];
    ReslotExclusive(own, start, usable, bits, i, [], bits');
    ReslotBits(own, start, usable, bits, i, [], bits');
    var own' := own - {i};
    forall j | j in own' ensures own'[j] == hollow[j] {
    }
    forall b | 0 <= b < usable ensures bits'[b] <==> Reaches(own', start + b) {
      assert bits'[b] <==> Reaches(hollow, start + b);
      forall j | j in hollow && start + b in hollow[j] ensures j in own' {
      }
    }
  }

  // ---------------------------------------------------------------------------------------
  // Blocks taken from the bitmap but not yet entered in an inode.

  /** Since bits0 the blocks taken were allocated, and nothing else changed. */
  ghost predicate Pending(start: nat, bits0: seq<bool>, bits: seq<bool>, taken: seq<Word>) {
    && |bits| == |bits0|
    && (forall j :: 0 <= j < |taken| ==> start <= taken[j] < start + |bits0| && !bits0[taken[j] - start])
    && (forall j, k :: 0 <= j < k < |taken| ==> taken[j] != taken[k])
    && (forall b :: 0 <= b < |bits| ==> (bits[b] <==> bits0[b] || start + b in taken))
  }

  lemma TakeOne(start: nat, bits0: seq<bool>, bits: seq<bool>, taken: seq<Word>, b: nat, lba: Word)
    requires Pending(start, bits0, bits, taken) && b < |bits| && !bits[b] && lba == start + b
    ensures Pending(start, bits0, bits[b := true], taken + [lba])
  {
    assert lba !in taken;
    var more := taken + [lba];
    forall c | 0 <= c < |bits| ensures bits[b := true][c] <==> bits0[c] || start + c in more {
      assert start + c in more <==> start + c in taken || start + c == lba;
    }
  }

  /** Entering the taken blocks in empty slots of one inode. */
  lemma PendingReslot(own: map<nat, seq<Word>>, start: nat, usable: nat, bits0: seq<bool>, bits: seq<bool>,
                      taken: seq<Word>, i: nat, slots: seq<Word>)
    requires Exclusive(own) && start > 0 && i in own && |slots| == |own[i]| && Pending(start, bits0, bits, taken)
    requires BitsMatch(own, start, usable, bits0)
    requires forall k :: 0 <= k < |slots| && own[i][k] != 0 ==> slots[k] == own[i][k]
    requires forall k :: 0 <= k < |slots| && own[i][k] == 0 && slots[k] != 0 ==> slots[k] in taken
    requires forall k, l :: 0 <= k < l < |slots| && own[i][k] == 0 && own[i][l] == 0 && slots[k] != 0 ==>
             slots[k] != slots[l]
    requires forall t :: t in taken ==> t in slots
    ensures Reslot(own, start, usable, bits0, i, slots, bits)
  {
    hide Exclusive, BitsMatch, Reaches;
    var held := own[i];
    forall k | 0 <= k < |slots| && held[k] != 0
      ensures start <= held[k] < start + usable <= start + |bits0| && bits0[held[k] - start]
    {
      HeldIsSet(own, start, usable, bits0, i, k);
    }
    TakenApart(start, bits0, bits, taken);
    HeldApart(own, i);
    forall k, l | 0 <= k < l < |slots| && slots[k] != 0 ensures slots[k] != slots[l] {
      assert held[k] != 0 ==> slots[k] == held[k];
      assert held[l] != 0 ==> slots[l] == held[l];
      assert slots[l] != 0 && held[l] == 0 ==> slots[l] in taken;
      assert held[k] == 0 ==> slots[k] in taken;
    }
    forall b | 0 <= b < |bits0|
      ensures bits[b] == (if start + b in slots then true else if start + b in own[i] then false else bits0[b])
    {
      if start + b in slots {
        var k :| 0 <= k < |slots| && slots[k] == start + b;
      } else {
        HeldStays(held, slots, start + b);
      }
    }
  }

  lemma HeldIsSet(own: map<nat, seq<Word>>, start: nat, usable: nat, bits: seq<bool>, i: nat, k: nat)
    requires BitsMatch(own, start, usable, bits) && i in own && k < |own[i]| && own[i][k] != 0
    ensures start <= own[i][k] < start + usable <= start + |bits| && bits[own[i][k] - start]
  {
    assert own[i][k] in own[i];
    assert Reaches(own, start + (own[i][k] - start));
  }

  lemma TakenApart(start: nat, bits0: seq<bool>, bits: seq<bool>, taken: seq<Word>)
    requires Pending(start, bits0, bits, taken)
    ensures forall a :: a in taken ==> start <= a < start + |bits0| && !bits0[a - start]
  {
  }

  lemma HeldApart(own: map<nat, seq<Word>>, i: nat)
    requires Exclusive(own) && i in own
    ensures forall k, l :: 0 <= k < l < |own[i]| && own[i][k] != 0 ==> own[i][k] != own[i][l]
  {
  }

  lemma HeldStays(held: seq<Word>, slots: seq<Word>, a: int)
    requires |held| == |slots| && a != 0 && a !in slots
    requires forall k :: 0 <= k < |slots| && held[k] != 0 ==> slots[k] == held[k]
    ensures a !in held
  {
  }

  // ---------------------------------------------------------------------------------------
  // Writes to the disk.

  /** The two disks differ at most in sectors that only inode i reaches, or nobody. */
  ghost predicate WritesOwn(fs: Fs, disk: seq<Sector>, i: nat)
    requires Sizes(fs)
  {
    && |disk| == |fs.disk|
    && forall a :: 0 <= a < |disk| && disk[a] != fs.disk[a] ==>
         forall j :: j in fs.inodes && j != i ==> a == 0 || a !in Own(fs)[j]
  }

  /** Other inodes keep their slots and the bytes in their blocks. */
  lemma OthersKeep(fs: Fs, disk: seq<Sector>, i: nat, j: nat)
    requires Sizes(fs) && WritesOwn(fs, disk, i) && j in fs.inodes && j != i
    ensures Slots(disk, fs.inodes[j]) == Slots(fs.disk, fs.inodes[j])
    ensures forall k :: 0 <= k < SLOTS && 0 < Slots(disk, fs.inodes[j])[k] < |disk| ==>
              disk[Slots(disk, fs.inodes[j])[k]] == fs.disk[Slots(disk, fs.inodes[j])[k]]
  {
    var s := Slots(fs.disk, fs.inodes[j]);
    assert Own(fs)[j] == s;
    var t := fs.inodes[j].sectors[12];
    assert s[..13][12] == t && s[12] == t && t in s;
  }
}
