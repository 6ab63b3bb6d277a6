/** Disk blocks.  A block is BSIZE bytes; the kernel reads the same bytes as 128
    little-endian 32-bit words (log header, indirect blocks, on-disk inodes), so a
    block is stored here as its words and its bytes are derived from them. */
module Blocks {

  const BSIZE := 512
  const WORDS := 128

  type Byte = x: int | 0 <= x < 256
  type Word = x: int | 0 <= x < 0x1_0000_0000
  type Block = b: seq<Word> | |b| == 128 witness seq(128, _ => 0)
  type Bytes = b: seq<Byte> | |b| == 512 witness seq(512, _ => 0)

  const ZERO_BLOCK: Block := Zeroes()

  function Zeroes(): (r: Block)
    ensures forall i :: 0 <= i < |r| ==> r[i] == 0
  {
    seq(128, _ => 0)
  }

  // ----- bytes of a word -----

  function ByteOf(w: Word, k: nat): Byte
    requires k < 4
  {
    if k == 0 then w % 0x100
    else if k == 1 then w / 0x100 % 0x100
    else if k == 2 then w / 0x100 / 0x100 % 0x100
    else w / 0x100 / 0x100 / 0x100
  }

  function WordOf(b0: Byte, b1: Byte, b2: Byte, b3: Byte): Word {
    b0 + 0x100 * (b1 + 0x100 * (b2 + 0x100 * b3))
  }

  lemma LowByte(lo: Byte, hi: nat)
    ensures (lo + 0x100 * hi) % 0x100 == lo && (lo + 0x100 * hi) / 0x100 == hi
  {
  }

  lemma BytesOfWord(b0: Byte, b1: Byte, b2: Byte, b3: Byte)
    ensures var w := WordOf(b0, b1, b2, b3);
            ByteOf(w, 0) == b0 && ByteOf(w, 1) == b1 && ByteOf(w, 2) == b2 && ByteOf(w, 3) == b3
  {
    LowByte(b2, b3);
    LowByte(b1, b2 + 0x100 * b3);
    LowByte(b0, b1 + 0x100 * (b2 + 0x100 * b3));
  }

  // ----- bytes of a block -----

  function BytesOf(b: Block): Bytes {
    seq(512, k requires 0 <= k < 512 => ByteOf(b[k / 4], k % 4))
  }

  function FromBytes(s: Bytes): Block {
    seq(128, i requires 0 <= i < 128 => WordOf(s[4 * i], s[4 * i + 1], s[4 * i + 2], s[4 * i + 3]))
  }

  lemma ByteIndex(b: Block, i: nat, k: nat)
    requires i < 128 && k < 4
    ensures 4 * i + k < 512 && BytesOf(b)[4 * i + k] == ByteOf(b[i], k)
  {
    assert (4 * i + k) / 4 == i && (4 * i + k) % 4 == k;
  }

  lemma BytesOfFromBytes(s: Bytes)
    ensures BytesOf(FromBytes(s)) == s
  {
    var b := FromBytes(s);
    forall k | 0 <= k < 512 ensures BytesOf(b)[k] == s[k] {
      var i := k / 4;
      ByteIndex(b, i, k % 4);
      BytesOfWord(s[4 * i], s[4 * i + 1], s[4 * i + 2], s[4 * i + 3]);
    }
  }
}
