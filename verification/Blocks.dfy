/** Disk blocks: 512 bytes that the kernel also reads as 128 little-endian words. */
module Blocks {
  const BSIZE: nat := 512
  const WORDS: nat := 128

  type Byte = x: int | 0 <= x < 256
  type Word = x: int | 0 <= x < 0x1_0000_0000
  type Block = b: seq<Byte> | |b| == BSIZE witness seq(BSIZE, _ => 0)

  /** The i-th word of a block, its bytes lowest first, as a 386 reads it. */
  function GetWord(b: Block, i: nat): Word
    requires i < WORDS
  {
    (b[4 * i] as int) + 256 * (b[4 * i + 1] as int) + 65536 * (b[4 * i + 2] as int) + 16777216 * (b[4 * i + 3] as int)
  }

  function WordBytes(w: Word): (r: seq<Byte>)
    ensures |r| == 4
    ensures (r[0] as int) + 256 * (r[1] as int) + 65536 * (r[2] as int) + 16777216 * (r[3] as int) == w
  {
    var x := w / 256;
    var y := x / 256;
    [w % 256, x % 256, y % 256, y / 256]
  }

  /** The block with w stored as its i-th word. */
  function PutWord(b: Block, i: nat, w: Word): (r: Block)
    requires i < WORDS
    ensures GetWord(r, i) == w
    ensures forall j: nat :: j < WORDS && j != i ==> GetWord(r, j) == GetWord(b, j)
  {
    var r := b[..4 * i] + WordBytes(w) + b[4 * i + 4..];
    assert forall k :: 0 <= k < BSIZE && !(4 * i <= k < 4 * i + 4) ==> r[k] == b[k];
    assert forall k :: 4 * i <= k < 4 * i + 4 ==> r[k] == WordBytes(w)[k - 4 * i];
    r
  }

  function ZeroBlock(): (b: Block)
    ensures forall j: nat :: j < WORDS ==> GetWord(b, j) == 0
    ensures forall k :: 0 <= k < BSIZE ==> b[k] == 0
  {
    seq(BSIZE, _ => 0)
  }
}
