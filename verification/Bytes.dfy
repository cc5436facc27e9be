/** Bytes, 32-bit words in memory order (least significant byte first), and sectors. */
module Bytes {

  type Byte = b: int | 0 <= b < 256
  type Word = w: int | 0 <= w < 0x1_0000_0000

  const SECTOR: nat := 512
  const WORDS: nat := 128      // words in a sector

  type Sector = s: seq<Byte> | |s| == SECTOR witness seq(SECTOR, _ => 0)

  function ZeroSector(): Sector {
    seq(SECTOR, _ => 0)
  }

  function WordBytes(w: Word): (r: seq<Byte>)
    ensures |r| == 4
  {
    [w % 256, w / 256 % 256, w / 256 / 256 % 256, w / 256 / 256 / 256]
  }

  function BytesWord(s: seq<Byte>): Word
    requires |s| == 4
  {
    s[0] as int + 0x100 * (s[1] as int) + 0x1_0000 * (s[2] as int) + 0x100_0000 * (s[3] as int)
  }

  lemma WordRoundTrip(w: Word)
    ensures BytesWord(WordBytes(w)) == w
  {
  }

  /** Words stored one after the other. */
  function EncodeWords(ws: seq<Word>): (r: seq<Byte>)
    ensures |r| == 4 * |ws|
  {
    if ws == [] then [] else EncodeWords(ws[..|ws| - 1]) + WordBytes(ws[|ws| - 1])
  }

  /** The k-th word from offset 0 on. */
  function WordAt(s: seq<Byte>, k: nat): Word
    requires 4 * k + 4 <= |s|
  {
    BytesWord(s[4 * k..4 * k + 4])
  }

  function DecodeWords(s: seq<Byte>, n: nat): (ws: seq<Word>)
    requires |s| == 4 * n
    ensures |ws| == n
    ensures forall k :: 0 <= k < n ==> ws[k] == WordAt(s, k)
  {
    seq(n, k requires 0 <= k < n => WordAt(s, k))
  }

  lemma {:induction false} EncodedAt(ws: seq<Word>, k: nat)
    requires k < |ws|
    ensures WordAt(EncodeWords(ws), k) == ws[k]
  {
    var n := |ws| - 1;
    var init := EncodeWords(ws[..n]);
    if k < n {
      EncodedAt(ws[..n], k);
      assert EncodeWords(ws)[4 * k..4 * k + 4] == init[4 * k..4 * k + 4];
    } else {
      assert EncodeWords(ws)[4 * n..4 * n + 4] == WordBytes(ws[n]);
      WordRoundTrip(ws[n]);
    }
  }

  /** What was stored as words is read back as the same words. */
  lemma WordsRoundTrip(ws: seq<Word>)
    ensures DecodeWords(EncodeWords(ws), |ws|) == ws
  {
    forall k | 0 <= k < |ws| ensures DecodeWords(EncodeWords(ws), |ws|)[k] == ws[k] {
      EncodedAt(ws, k);
    }
  }
}
