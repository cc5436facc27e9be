/** Model of src/lib/bitmap.c: bit arrays packed in bytes, first-fit search. */
module Bitmaps {
  import opened Results

  // ---------------------------------------------------------------------------------------
  // The meaning: a bitmap is a sequence of booleans.

  /** Bits s .. s + cnt - 1 exist and are all clear. */
  ghost predicate ClearRun(bits: seq<bool>, s: int, cnt: nat)
  {
    0 <= s && s + cnt <= |bits| && forall k :: s <= k < s + cnt ==> !bits[k]
  }

  /** s is the least start of a run of cnt clear bits. */
  ghost predicate LeastRun(bits: seq<bool>, s: int, cnt: nat)
  {
    ClearRun(bits, s, cnt) && forall t :: 0 <= t < s ==> !ClearRun(bits, t, cnt)
  }

  /** The least clear bit, as the other modules allocate with it. */
  function FirstClear(bits: seq<bool>): (r: Option<nat>)
    ensures r.Some? ==> r.value < |bits| && !bits[r.value] && forall k :: 0 <= k < r.value ==> bits[k]
    ensures r.None? ==> forall k :: 0 <= k < |bits| ==> bits[k]
  {
    FirstClearFrom(bits, 0)
  }

  function FirstClearFrom(bits: seq<bool>, i: nat): (r: Option<nat>)
    requires i <= |bits|
    ensures r.Some? ==> i <= r.value < |bits| && !bits[r.value] && forall k :: i <= k < r.value ==> bits[k]
    ensures r.None? ==> forall k :: i <= k < |bits| ==> bits[k]
    decreases |bits| - i
  {
    if i == |bits| then None
    else if !bits[i] then Some(i)
    else FirstClearFrom(bits, i + 1)
  }

  /** How many bits are clear: what can still be allocated. */
  function ClearBits(bits: seq<bool>): nat {
    if bits == [] then 0 else ClearBits(bits[..|bits| - 1]) + if bits[|bits| - 1] then 0 else 1
  }

  lemma {:induction false} FreeAfterSet(bits: seq<bool>, b: nat)
    requires b < |bits| && !bits[b]
    ensures ClearBits(bits) == ClearBits(bits[b := true]) + 1
  {
    var n := |bits| - 1;
    if b < n {
      FreeAfterSet(bits[..n], b);
      assert bits[b := true][..n] == bits[..n][b := true];
    } else {
      assert bits[b := true][..n] == bits[..n];
    }
  }

  lemma {:induction false} NoneFree(bits: seq<bool>)
    requires forall k :: 0 <= k < |bits| ==> bits[k]
    ensures ClearBits(bits) == 0
  {
    if bits != [] {
      NoneFree(bits[..|bits| - 1]);
    }
  }

  lemma FirstClearIff(bits: seq<bool>)
    ensures FirstClear(bits).None? <==> ClearBits(bits) == 0
  {
    var f := FirstClear(bits);
    if f.Some? {
      FreeAfterSet(bits, f.value);
    } else {
      NoneFree(bits);
    }
  }

  // ---------------------------------------------------------------------------------------
  // Bytes.

  /** BITMAP_MASK << k. */
  function Mask(k: nat): bv8
    requires k < 8
  {
    if k == 0 then 1 else if k == 1 then 2 else if k == 2 then 4 else if k == 3 then 8
    else if k == 4 then 16 else if k == 5 then 32 else if k == 6 then 64 else 128
  }

  predicate ByteBit(b: bv8, k: nat)
    requires k < 8
  {
    b & Mask(k) != 0
  }

  predicate Bit(bytes: seq<bv8>, i: nat)
    requires i < 8 * |bytes|
  {
    ByteBit(bytes[i / 8], i % 8)
  }

  function ByteBits(b: bv8): (bits: seq<bool>)
    ensures |bits| == 8
  {
    [ByteBit(b, 0), ByteBit(b, 1), ByteBit(b, 2), ByteBit(b, 3),
     ByteBit(b, 4), ByteBit(b, 5), ByteBit(b, 6), ByteBit(b, 7)]
  }

  function Unpack(bytes: seq<bv8>): (bits: seq<bool>)
    ensures |bits| == 8 * |bytes|
  {
    if bytes == [] then [] else Unpack(bytes[..|bytes| - 1]) + ByteBits(bytes[|bytes| - 1])
  }

  /** Bit i of the map is bit i % 8 of byte i / 8. */
  lemma {:induction false} UnpackAt(bytes: seq<bv8>, i: nat)
    requires i < 8 * |bytes|
    ensures Unpack(bytes)[i] == Bit(bytes, i)
  {
    hide ByteBit, ByteBits;
    var n := |bytes| - 1;
    if i < 8 * n {
      UnpackAt(bytes[..n], i);
    } else {
      assert i / 8 == n && i % 8 == i - 8 * n;
      ByteBitsAt(bytes[n], i - 8 * n);
    }
  }

  lemma ByteBitsAt(b: bv8, k: nat)
    requires k < 8
    ensures ByteBits(b)[k] == ByteBit(b, k)
  {
    hide ByteBit;
  }

  lemma {:induction false} UnpackPrefix(bytes: seq<bv8>, n: nat)
    requires n <= |bytes|
    ensures Unpack(bytes)[..8 * n] == Unpack(bytes[..n])
  {
    if n < |bytes| {
      UnpackPrefix(bytes[..|bytes| - 1], n);
      assert bytes[..|bytes| - 1][..n] == bytes[..n];
    } else {
      assert bytes[..n] == bytes;
    }
  }

  lemma FullByte(b: bv8)
    ensures b == 0xFF <==> forall k :: 0 <= k < 8 ==> ByteBit(b, k)
  {
    assert (forall k :: 0 <= k < 8 ==> ByteBit(b, k)) ==>
        ByteBit(b, 0) && ByteBit(b, 1) && ByteBit(b, 2) && ByteBit(b, 3) &&
        ByteBit(b, 4) && ByteBit(b, 5) && ByteBit(b, 6) && ByteBit(b, 7);
  }

  /** Writing bit k of a byte leaves its seven other bits alone. */
  lemma SetByteBit(b: bv8, k: nat, j: nat)
    requires k < 8 && j < 8
    ensures ByteBit(b | Mask(k), j) == (j == k || ByteBit(b, j))
    ensures ByteBit(b & !Mask(k), j) == (j != k && ByteBit(b, j))
  {
  }

  // ---------------------------------------------------------------------------------------
  // The object. The byte pointer of the source points into memory that goes on after the
  // last byte of the map, and the source does read the byte behind it; so the array here is
  // longer than the map.

  datatype ScanResult = Halts | Scanned(start: int)

  class Bitmap {
    const bits: array<bv8>
    const len: nat   // btmp_bytes_len

    constructor (bits: array<bv8>, len: nat)
      requires len < bits.Length
      ensures this.bits == bits && this.len == len
    {
      this.bits, this.len := bits, len;
    }

    ghost predicate Valid() {
      len < bits.Length
    }

    /** All bits of the memory that the map lies in. */
    ghost function Memory(): (s: seq<bool>)
      reads bits
      ensures |s| == 8 * bits.Length
    {
      Unpack(bits[..])
    }

    /** The map proper. */
    ghost function Contents(): (s: seq<bool>)
      requires Valid()
      reads bits
      ensures |s| == 8 * len
    {
      Unpack(bits[..len])
    }

    /** The map and the first bit behind it: what the search for a longer run looks at. */
    ghost function Window(): (s: seq<bool>)
      requires Valid()
      reads bits
      ensures |s| == 8 * len + 1 && s[..8 * len] == Contents()
    {
      UnpackPrefix(bits[..len + 1], len);
      assert bits[..len + 1][..len] == bits[..len];
      Unpack(bits[..len + 1])[..8 * len + 1]
    }

    lemma WindowAt(i: nat)
      requires Valid() && i <= 8 * len
      ensures Window()[i] == ByteBit(bits[i / 8], i % 8)
    {
      UnpackAt(bits[..len + 1], i);
    }

    lemma BitInByte(n: nat, k: nat)
      requires Valid() && n < len && k < 8
      ensures Contents()[8 * n + k] == ByteBit(bits[n], k)
    {
      UnpackAt(bits[..len], 8 * n + k);
    }

    lemma FreeBit(n: nat) returns (k: nat)
      requires Valid() && n < len && bits[n] != 0xFF
      ensures k < 8 && !ByteBit(bits[n], k)
    {
      FullByte(bits[n]);
      k :| 0 <= k < 8 && !ByteBit(bits[n], k);
    }

    /** bitmap_scan_test. */
    method ScanTest(bitIdx: nat) returns (r: bool)
      requires Valid() && bitIdx < 8 * bits.Length
      ensures r == Memory()[bitIdx]
      ensures bitIdx < 8 * len ==> r == Contents()[bitIdx]
      ensures bitIdx <= 8 * len ==> r == Window()[bitIdx]
    {
      hide Unpack;
      UnpackAt(bits[..], bitIdx);
      Parts(bits[..], len);
      assert Memory()[..8 * len] == Contents() && Memory()[..8 * len + 1] == Window();
      r := bits[bitIdx / 8] & Mask(bitIdx % 8) != 0;
    }

    /** bitmap_scan. Halts exactly on a full map. One bit: the least clear one. More bits:
        the least run, where the run may end on the bit behind the map; -1 when none. */
    method Scan(cnt: nat) returns (r: ScanResult)
      requires Valid() && cnt >= 1
      ensures r.Halts? <==> forall i :: 0 <= i < 8 * len ==> Contents()[i]
      ensures r.Scanned? && cnt == 1 ==> LeastRun(Contents(), r.start, 1)
      ensures r.Scanned? && cnt > 1 && r.start >= 0 ==> LeastRun(Window(), r.start, cnt)
      ensures r.Scanned? && cnt > 1 && r.start < 0 ==>
                r.start == -1 && forall s :: 0 <= s <= 8 * len + 1 ==> !ClearRun(Window(), s, cnt)
    {
      var first := FirstFree();
      match first {
        case None =>
          return Halts;
        case Some(i) =>
          if cnt == 1 {
            LeastClearBit(Contents(), i);
            return Scanned(i);
          }
          assert forall j :: 0 <= j <= i ==> Window()[..8 * len][j] == Window()[j];
          var start := ScanOn(i, cnt);
          return Scanned(start);
      }
    }

    /** The first half of bitmap_scan: skip full bytes, then the set bits of one byte. */
    method FirstFree() returns (r: Option<nat>)
      requires Valid()
      ensures r.None? ==> forall i :: 0 <= i < 8 * len ==> Contents()[i]
      ensures r.Some? ==> r.value < 8 * len && !Contents()[r.value]
      ensures r.Some? ==> forall i :: 0 <= i < r.value ==> Contents()[i]
    {
      hide Unpack;
      ghost var c := Contents();
      var idxByte := 0;
      while bits[idxByte] == 0xFF && idxByte < len
        invariant 0 <= idxByte <= len
        invariant forall i :: 0 <= i < 8 * idxByte ==> c[i]
        decreases len - idxByte
      {
        FullByte(bits[idxByte]);
        forall i | 8 * idxByte <= i < 8 * idxByte + 8 ensures c[i] {
          BitInByte(idxByte, i - 8 * idxByte);
        }
        idxByte := idxByte + 1;
      }
      if idxByte == len {
        return None;
      }
      ghost var k0 := FreeBit(idxByte);
      var idxBit := 0;
      while Mask(idxBit) & bits[idxByte] != 0
        invariant 0 <= idxBit <= k0
        invariant forall i :: 8 * idxByte <= i < 8 * idxByte + idxBit ==> c[i]
        decreases k0 - idxBit
      {
        BitInByte(idxByte, idxBit);
        idxBit := idxBit + 1;
      }
      BitInByte(idxByte, idxBit);
      return Some(idxByte * 8 + idxBit);
    }

    /** The second half of bitmap_scan: from the first clear bit on, count clear bits. */
    method ScanOn(first: nat, cnt: nat) returns (start: int)
      requires Valid() && cnt > 1 && first < 8 * len
      requires !Window()[first] && forall i :: 0 <= i < first ==> Window()[i]
      ensures start >= 0 ==> LeastRun(Window(), start, cnt)
      ensures start < 0 ==> start == -1 && forall s :: 0 <= s <= 8 * len + 1 ==> !ClearRun(Window(), s, cnt)
    {
      ghost var w := Window();
      var bitLeft := 8 * len - first;
      var nextBit := first + 1;
      var count := 1;
      forall s | 0 <= s && s + cnt <= nextBit ensures !ClearRun(w, s, cnt) {
        assert s <= s < s + cnt && w[s];
      }
      while bitLeft > 0
        invariant 0 <= bitLeft && nextBit + bitLeft == 8 * len + 1
        invariant first < nextBit && 0 <= count < cnt && count <= nextBit
        invariant forall i :: nextBit - count <= i < nextBit ==> !w[i]
        invariant count < nextBit ==> w[nextBit - count - 1]
        invariant forall s :: 0 <= s && s + cnt <= nextBit ==> !ClearRun(w, s, cnt)
        decreases bitLeft
      {
        bitLeft := bitLeft - 1;
        var taken := ScanTest(nextBit);
        WindowAt(nextBit);
        assert taken == w[nextBit];
        ghost var was := count;
        if !taken {
          count := count + 1;
        } else {
          count := 0;
        }
        NoEarlierRun(w, nextBit, was, count, cnt);
        if count == cnt {
          return nextBit - cnt + 1;
        }
        nextBit := nextBit + 1;
      }
      return -1;
    }

    /** bitmap_set: the bit gets the value, no other bit of the memory changes. */
    method Set(bitIdx: nat, value: bool)
      requires Valid() && bitIdx < 8 * bits.Length
      modifies bits
      ensures Memory() == old(Memory())[bitIdx := value]
      ensures Contents() == if bitIdx < 8 * len then old(Contents())[bitIdx := value] else old(Contents())
      ensures Window() == if bitIdx <= 8 * len then old(Window())[bitIdx := value] else old(Window())
      ensures bitIdx < 8 * len ==> bits[len..] == old(bits[len..])
      ensures forall j :: 0 <= j < bits.Length && j != bitIdx / 8 ==> bits[j] == old(bits[j])
    {
      hide Unpack, WithBit;
      ghost var before := bits[..];
      UnpackSet(before, bitIdx, value);
      Parts(before, len);
      var byteIdx, bitOdd := bitIdx / 8, bitIdx % 8;
      bits[byteIdx] := WithBit(bits[byteIdx], bitOdd, value);
      assert bits[..] == before[byteIdx := WithBit(before[byteIdx], bitOdd, value)];
      Parts(bits[..], len);
    }
  }

  /** The map, and the map with the bit behind it, as parts of the memory. */
  lemma Parts(memory: seq<bv8>, len: nat)
    requires len < |memory|
    ensures Unpack(memory[..len]) == Unpack(memory)[..8 * len]
    ensures Unpack(memory[..len + 1])[..8 * len + 1] == Unpack(memory)[..8 * len + 1]
  {
    hide Unpack;
    UnpackPrefix(memory, len);
    UnpackPrefix(memory, len + 1);
  }

  /** One step of the run counter: the run that ends at bit n is as long as the counter says. */
  lemma NoEarlierRun(w: seq<bool>, n: nat, was: nat, count: nat, cnt: nat)
    requires n < |w| && was <= n && was < cnt
    requires forall i :: n - was <= i < n ==> !w[i]
    requires was < n ==> w[n - was - 1]
    requires count == if w[n] then 0 else was + 1
    requires forall s :: 0 <= s && s + cnt <= n ==> !ClearRun(w, s, cnt)
    ensures count == cnt ==> LeastRun(w, n - cnt + 1, cnt)
    ensures count < cnt ==> forall s :: 0 <= s && s + cnt <= n + 1 ==> !ClearRun(w, s, cnt)
  {
    forall s | 0 <= s && s + cnt == n + 1 && count < cnt
      ensures !ClearRun(w, s, cnt)
    {
      var k := if w[n] then n else n - was - 1;
      assert s <= k < s + cnt && w[k];
    }
  }

  lemma LeastClearBit(bits: seq<bool>, i: nat)
    requires i < |bits| && !bits[i] && forall k :: 0 <= k < i ==> bits[k]
    ensures LeastRun(bits, i, 1)
  {
    forall t | 0 <= t < i ensures !ClearRun(bits, t, 1) {
      assert t <= t < t + 1 && bits[t];
    }
  }

  /** Setting or clearing bit k of a byte, as bitmap_set does. */
  function WithBit(b: bv8, k: nat, value: bool): bv8
    requires k < 8
  {
    if value then b | Mask(k) else b & !Mask(k)
  }

  lemma WithBitBit(b: bv8, k: nat, value: bool, j: nat)
    requires k < 8 && j < 8
    ensures ByteBit(WithBit(b, k, value), j) == if j == k then value else ByteBit(b, j)
  {
    SetByteBit(b, k, j);
  }

  lemma BitAfterSet(bytes: seq<bv8>, i: nat, value: bool, j: nat)
    requires i < 8 * |bytes| && j < 8 * |bytes|
    ensures Bit(bytes[i / 8 := WithBit(bytes[i / 8], i % 8, value)], j) == if j == i then value else Bit(bytes, j)
  {
    var q, k, p, m := i / 8, i % 8, j / 8, j % 8;
    assert j == i <==> p == q && m == k;
    var after := WithBit(bytes[q], k, value);
    if p == q {
      WithBitBit(bytes[q], k, value, m);
      assert bytes[q := after][p] == after;
    } else {
      assert bytes[q := after][p] == bytes[p];
    }
  }

  /** Replacing one byte by itself with one bit changed is an update of the unpacked map. */
  lemma UnpackSet(bytes: seq<bv8>, i: nat, value: bool)
    requires i < 8 * |bytes|
    ensures Unpack(bytes[i / 8 := WithBit(bytes[i / 8], i % 8, value)]) == Unpack(bytes)[i := value]
  {
    var after := Unpack(bytes[i / 8 := WithBit(bytes[i / 8], i % 8, value)]);
    forall j | 0 <= j < 8 * |bytes|
      ensures after[j] == Unpack(bytes)[i := value][j]
    {
      var packed := bytes[i / 8 := WithBit(bytes[i / 8], i % 8, value)];
      BitAfterSet(bytes, i, value, j);
      UnpackAt(bytes, j);
      UnpackAt(packed, j);
    }
  }

  lemma FirstIsLeast(bits: seq<bool>, b: int)
    requires LeastRun(bits, b, 1)
    ensures FirstClear(bits) == Some(b)
  {
    assert !bits[b];
    var f := FirstClear(bits).value;
    if f < b {
      assert ClearRun(bits, f, 1);
    }
  }

  // ---------------------------------------------------------------------------------------
  // What the search promises a caller.

  /** A run wholly inside the map is found whenever there is one, and it is the least one.
      The least run of the window leaves the map only when the map holds no run itself. */
  lemma ScanFindsRunInMap(bits: seq<bool>, window: seq<bool>, cnt: nat, start: int)
    requires cnt >= 1 && |window| == |bits| + 1 && window[..|bits|] == bits
    requires LeastRun(window, start, cnt)
    ensures start + cnt <= |bits| <==> exists s :: ClearRun(bits, s, cnt)
    ensures start + cnt <= |bits| ==> LeastRun(bits, start, cnt)
  {
    assert forall k :: 0 <= k < |bits| ==> bits[k] == window[k];
    if start + cnt <= |bits| {
      assert ClearRun(bits, start, cnt);
      forall t | 0 <= t < start ensures !ClearRun(bits, t, cnt) {
        assert ClearRun(bits, t, cnt) ==> ClearRun(window, t, cnt);
      }
    }
    forall s | ClearRun(bits, s, cnt) ensures start + cnt <= |bits| {
      assert ClearRun(window, s, cnt);
      assert start <= s;
    }
  }

  /** The search can answer with a run that ends behind the map: a one-byte map whose only
      clear bit is its last, followed by a clear byte, searched for two bits. */
  method ScanLeavesMap() returns (r: ScanResult)
    ensures r == Scanned(7)
  {
    var bytes := new bv8[] [0x7F, 0x00];
    var b := new Bitmap(bytes, 1);
    ghost var shape: seq<bool> := [true, true, true, true, true, true, true, false, false];
    assert bytes[..2] == [0x7F, 0x00];
    assert b.Window() == shape;
    assert !b.Contents()[7] by {
      assert b.Window()[7] == b.Contents()[7];
    }
    assert ClearRun(shape, 7, 2);
    r := b.Scan(2);
    assert b.Window() == shape && !b.Contents()[7];
    assert ClearRun(b.Window(), 7, 2);
    forall t | 0 <= t < 7 ensures !ClearRun(shape, t, 2) {
      assert t <= t < t + 2 && shape[t];
    }
  }
}
